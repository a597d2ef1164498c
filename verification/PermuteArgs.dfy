/** The in-place exchange of two adjacent blocks of an argument vector, done by following
    gcd-many cycles with one slot as the temporary. */
module PermuteArgs {
  import opened Euclid

  /** What the exchange is for: the block from `mid` to `end` moves in front of the block
      from `start` to `mid`; both keep their order and the rest stays. */
  function Exchanged<T>(s: seq<T>, start: nat, mid: nat, end: nat): seq<T>
    requires start <= mid <= end <= |s|
  {
    s[..start] + s[mid..end] + s[start..mid] + s[end..]
  }

  lemma ExchangedAt<T>(s: seq<T>, start: nat, mid: nat, end: nat, q: nat)
    requires start <= mid <= end <= |s| && q < |s|
    ensures |Exchanged(s, start, mid, end)| == |s|
    ensures Exchanged(s, start, mid, end)[q] ==
      s[if q < start || end <= q then q else if q < start + (end - mid) then q + (mid - start) else q - (end - mid)]
  {
  }

  /** Exchanging the two blocks again restores the vector. */
  lemma ExchangedBack<T>(s: seq<T>, start: nat, mid: nat, end: nat)
    requires start <= mid <= end <= |s|
    ensures |Exchanged(s, start, mid, end)| == |s|
    ensures Exchanged(Exchanged(s, start, mid, end), start, start + (end - mid), end) == s
  {
    var r := Exchanged(s, start, mid, end);
    var cut := start + (end - mid);
    assert r[start..cut] == s[mid..end] && r[cut..end] == s[start..mid];
  }

  /** Where the element at offset p belongs, for blocks of n and k elements. */
  function Next(n: nat, k: nat, p: nat): (q: nat)
    requires p < n + k
    ensures q < n + k
  {
    if p >= n then p - n else p + k
  }

  /** The offset reached after t steps from the i-th element of the second block. */
  function Spot(n: nat, k: nat, i: nat, t: nat): (q: nat)
    requires i < k
    ensures q < n + k
  {
    if t == 0 then n + i else Next(n, k, Spot(n, k, i, t - 1))
  }

  /** The block lengths divided by their gcd, with coefficients showing they are coprime. */
  datatype Cycles = Cycles(g: nat, x: nat, y: nat, u: int, v: int)

  ghost predicate Shape(n: nat, k: nat, c: Cycles) {
    && 0 < c.g && 0 < c.x && 0 < c.y
    && n == c.g * c.x
    && k == c.g * c.y
    && c.u * c.x + c.v * c.y == 1
  }

  lemma CancelOne(g: int, z: int)
    requires 0 < g && g * z == g
    ensures z == 1
  {
    assert g * (z - 1) == 0;
  }

  lemma ZeroFactor(g: int, z: int)
    requires 0 < g && g * z == 0
    ensures z == 0
  {
  }

  lemma DivideExact(g: int, z: int)
    requires 0 < g
    ensures (g * z) / g == z
  {
    var q := (g * z) / g;
    assert (g * z) % g == g * (z - q);
    SmallMultiple(g, z - q, (g * z) % g);
    ZeroFactor(g, z - q);
  }

  lemma ShapeOf(n: nat, k: nat) returns (c: Cycles)
    requires 0 < n && 0 < k
    ensures Shape(n, k, c) && c.g == GcdOf(n, k) <= k
    ensures (n + k) / c.g == c.x + c.y
  {
    var g := GcdOf(n, k);
    var x, y := GcdDivides(n, k);
    var u, v := Bezout(n, k);
    assert u * (g * x) + v * (g * y) == g * (u * x + v * y);
    assert u * x + v * y == 1 by { CancelOne(g, u * x + v * y); }
    c := Cycles(g, x, y, u, v);
    assert n + k == g * (x + y);
    assert (n + k) / g == x + y by { DivideExact(g, x + y); }
  }

  lemma Regroup(a: int, g: int, b: int)
    ensures a * (g * b) == g * (a * b)
  {
  }

  /** a added t times; keeps products out of the proofs that only add. */
  ghost function Times(a: int, t: nat): int {
    if t == 0 then 0 else Times(a, t - 1) + a
  }

  lemma {:induction false} TimesIsProduct(a: int, t: nat)
    ensures Times(a, t) == t * a
  {
    if t > 0 {
      TimesIsProduct(a, t - 1);
      assert (t - 1) * a + a == t * a;
    }
  }

  /** Each step adds k modulo n + k. */
  lemma {:induction false} SpotForm(n: nat, k: nat, i: nat, t: nat) returns (q: nat)
    requires i < k
    ensures Spot(n, k, i, t) + Times(n + k, q) == n + i + Times(k, t)
  {
    if t == 0 {
      q := 0;
    } else {
      var q' := SpotForm(n, k, i, t - 1);
      q := if Spot(n, k, i, t - 1) >= n then q' + 1 else q';
    }
  }

  lemma FullTurn(n: nat, k: nat, c: Cycles, first: nat, p: nat, q: nat)
    requires Shape(n, k, c) && first < n + k && p < n + k
    requires p + Times(n + k, q) == first + Times(k, c.x + c.y)
    ensures p == first
  {
    var l, len := n + k, c.x + c.y;
    TimesIsProduct(l, q);
    TimesIsProduct(k, len);
    assert l == c.g * len;
    assert len * (c.g * c.y) == (c.g * len) * c.y;
    assert q * l == l * q;
    assert p - first == l * (c.y - q);
    SmallMultiple(l, c.y - q, p - first);
  }

  /** A cycle returns to its first slot after (n + k) / g steps. */
  lemma SpotReturns(n: nat, k: nat, c: Cycles, i: nat)
    requires Shape(n, k, c) && i < k
    ensures Spot(n, k, i, c.x + c.y) == n + i
  {
    var len := c.x + c.y;
    var q := SpotForm(n, k, i, len);
    FullTurn(n, k, c, n + i, Spot(n, k, i, len), q);
  }

  /** If d steps of y make a multiple of x + y, and x and y are coprime, then x + y divides d. */
  lemma CoprimeSteps(c: Cycles, d: int, r: int)
    requires c.u * c.x + c.v * c.y == 1
    requires d * c.y == r * (c.x + c.y)
    ensures d == (c.x + c.y) * (c.u * (d - r) + c.v * r)
  {
    var x, y, u, v := c.x, c.y, c.u, c.v;
    assert d * x == (d - r) * (x + y) by { assert d * (x + y) == d * x + d * y; }
    assert d * (u * x + v * y) == u * (d * x) + v * (d * y);
    assert u * ((d - r) * (x + y)) == (x + y) * (u * (d - r));
    assert v * (r * (x + y)) == (x + y) * (v * r);
  }

  lemma LengthOf(n: nat, k: nat, c: Cycles) returns (l: nat)
    requires Shape(n, k, c)
    ensures l == n + k && l == c.g * (c.x + c.y)
  {
    l := n + k;
  }

  lemma SubtractForms(p: int, l: int, k: int, b1: int, t1: int, q1: int, b2: int, t2: int, q2: int)
    requires p + q1 * l == b1 + t1 * k
    requires p + q2 * l == b2 + t2 * k
    ensures b1 - b2 == (q1 - q2) * l - (t1 - t2) * k
  {
  }

  lemma TimesDifference(l: int, k: int, p: int, b1: int, t1: nat, q1: nat, b2: int, t2: nat, q2: nat) returns (r: int)
    requires p + Times(l, q1) == b1 + Times(k, t1)
    requires p + Times(l, q2) == b2 + Times(k, t2)
    ensures b1 - b2 == r * l - (t1 - t2) * k
  {
    TimesIsProduct(l, q1);
    TimesIsProduct(l, q2);
    TimesIsProduct(k, t1);
    TimesIsProduct(k, t2);
    r := q1 - q2;
    SubtractForms(p, l, k, b1, t1, q1, b2, t2, q2);
  }

  lemma Difference(g: int, len: int, y: int, d: int, r: int, i: int)
    requires i == r * (g * len) - d * (g * y)
    ensures i == g * (r * len - d * y)
  {
    Regroup(r, g, len);
    Regroup(d, g, y);
    assert g * (r * len - d * y) == g * (r * len) - g * (d * y);
  }

  lemma SameResidue(c: Cycles, l: nat, k: nat, d: int, r: int, i: int)
    requires 0 < c.g && 0 < c.x && 0 < c.y && c.u * c.x + c.v * c.y == 1
    requires l == c.g * (c.x + c.y) && k == c.g * c.y
    requires i == r * l - d * k
    requires i < c.g && -i < c.g
    requires d < c.x + c.y && -d < c.x + c.y
    ensures i == 0 && d == 0
  {
    var len := c.x + c.y;
    var z := r * len - d * c.y;
    Difference(c.g, len, c.y, d, r, i);
    SmallMultiple(c.g, z, i);
    ZeroFactor(c.g, z);
    CoprimeSteps(c, d, r);
    SmallMultiple(len, c.u * (d - r) + c.v * r, d);
  }

  lemma MeetOnlyOnce(n: nat, k: nat, c: Cycles, p: nat, i1: nat, t1: nat, q1: nat, i2: nat, t2: nat, q2: nat)
    requires Shape(n, k, c)
    requires i1 < c.g && i2 < c.g && t1 < c.x + c.y && t2 < c.x + c.y
    requires p + Times(n + k, q1) == n + i1 + Times(k, t1)
    requires p + Times(n + k, q2) == n + i2 + Times(k, t2)
    ensures i1 == i2 && t1 == t2
  {
    var l := LengthOf(n, k, c);
    var r := TimesDifference(l, k, p, n + i1, t1, q1, n + i2, t2, q2);
    SameResidue(c, l, k, t1 - t2, r, i1 - i2);
  }

  /** Different cycles, and different steps of one cycle, never meet. */
  lemma SpotsDistinct(n: nat, k: nat, c: Cycles, i1: nat, t1: nat, i2: nat, t2: nat)
    requires Shape(n, k, c) && c.g <= k
    requires i1 < c.g && i2 < c.g && t1 < c.x + c.y && t2 < c.x + c.y
    requires Spot(n, k, i1, t1) == Spot(n, k, i2, t2)
    ensures i1 == i2 && t1 == t2
  {
    var q1 := SpotForm(n, k, i1, t1);
    var q2 := SpotForm(n, k, i2, t2);
    MeetOnlyOnce(n, k, c, Spot(n, k, i1, t1), i1, t1, q1, i2, t2, q2);
  }

  /** y times v - u is 1 modulo x + y, so d * (v - u) steps of y make d modulo x + y. */
  lemma StepsFor(c: Cycles, d: int, w: int)
    requires c.u * c.x + c.v * c.y == 1
    requires w == d * (c.v - c.u)
    ensures w * c.y == d - (d * c.u) * (c.x + c.y)
  {
    var x, y, u, v := c.x, c.y, c.u, c.v;
    assert (v - u) * y == 1 - u * (x + y) by {
      assert u * (x + y) == u * x + u * y;
      assert (v - u) * y == v * y - u * y;
    }
    assert w * y == d * ((v - u) * y);
    assert d * (1 - u * (x + y)) == d - d * (u * (x + y));
    assert d * (u * (x + y)) == (d * u) * (x + y);
  }

  lemma ReduceSteps(w: int, len: int, y: int, m: int, t: int)
    requires w == m * len + t
    ensures t * y == w * y - (m * y) * len
  {
    assert (m * len + t) * y == (m * len) * y + t * y;
    assert (m * len) * y == (m * y) * len;
  }

  lemma SplitBy(a: int, g: nat) returns (i: nat, d: int)
    requires 0 < g
    ensures i < g && a == i + g * d
  {
    i, d := a % g, a / g;
  }

  lemma StepsTo(c: Cycles, d: int) returns (t: nat, z: int)
    requires 0 < c.x && 0 < c.y && c.u * c.x + c.v * c.y == 1
    ensures t < c.x + c.y && t * c.y == d - z * (c.x + c.y)
  {
    var len := c.x + c.y;
    var w := d * (c.v - c.u);
    var m: int;
    t, m := SplitBy(w, len);
    StepsFor(c, d, w);
    ReduceSteps(w, len, c.y, m, t);
    z := d * c.u + m * c.y;
    assert z * len == (d * c.u) * len + (m * c.y) * len;
  }

  lemma ScaleSteps(g: int, len: int, y: int, d: int, z: int, t: int)
    requires t * y == d - z * len
    ensures t * (g * y) == g * d - z * (g * len)
  {
    Regroup(t, g, y);
    Regroup(z, g, len);
    assert g * (d - z * len) == g * d - g * (z * len);
  }

  lemma SameSpot(l: nat, p: nat, spot: nat, z: int, q: int)
    requires p < l && spot < l
    requires spot + q * l == p - z * l
    ensures spot == p
  {
    assert spot - p == l * (-z - q);
    SmallMultiple(l, -z - q, spot - p);
  }

  lemma LandsOn(n: nat, k: nat, c: Cycles, p: nat, spot: nat, i: nat, d: int, t: nat, z: int, q: nat)
    requires Shape(n, k, c) && p < n + k && spot < n + k
    requires p - n == i + c.g * d
    requires t * c.y == d - z * (c.x + c.y)
    requires spot + Times(n + k, q) == n + i + Times(k, t)
    ensures spot == p
  {
    var l := LengthOf(n, k, c);
    TimesIsProduct(l, q);
    TimesIsProduct(k, t);
    ScaleSteps(c.g, c.x + c.y, c.y, d, z, t);
    SameSpot(l, p, spot, z, q);
  }

  /** Every offset lies on some cycle. */
  lemma SpotsCover(n: nat, k: nat, c: Cycles, p: nat) returns (i: nat, t: nat)
    requires Shape(n, k, c) && c.g <= k && p < n + k
    ensures i < c.g && t < c.x + c.y
    ensures Spot(n, k, i, t) == p
  {
    var d: int, z: int;
    i, d := SplitBy(p - n, c.g);
    t, z := StepsTo(c, d);
    var q := SpotForm(n, k, i, t);
    LandsOn(n, k, c, p, Spot(n, k, i, t), i, d, t, z, q);
  }

  /** The slots of one cycle in the order they are visited, ending where it began. */
  type Path = seq<nat>

  function PathOf(start: nat, n: nat, k: nat, i: nat, len: nat): (path: Path)
    requires i < k
    ensures |path| == len + 1
    ensures forall t :: 0 <= t <= len ==> path[t] == start + Spot(n, k, i, t)
  {
    seq(len + 1, t requires 0 <= t => start + Spot(n, k, i, t))
  }

  /** The slot whose element moves to q. */
  function Source(start: nat, n: nat, k: nat, q: nat): (p: nat)
    requires start <= q < start + n + k
    ensures start <= p < start + n + k
  {
    if q < start + k then q + n else q - k
  }

  /** The index of the cycle through each slot: the residue of its distance from the second block. */
  ghost function CycleIndex(start: nat, n: nat, g: nat, size: nat): (index: seq<nat>)
    requires 0 < g
    ensures |index| == size
    ensures forall q :: 0 <= q < size ==> index[q] == (q - start - n) % g
  {
    seq(size, q requires 0 <= q => (q - start - n) % g)
  }

  ghost predicate IsLoop(path: Path) {
    && 1 < |path|
    && path[|path| - 1] == path[0]
    && (forall t, t' :: 0 <= t < t' < |path| - 1 ==> path[t] != path[t'])
  }

  ghost predicate OnPath(path: Path, q: nat) {
    exists t :: 1 <= t < |path| && path[t] == q
  }

  ghost predicate FedBefore(path: Path, t: nat, start: nat, n: nat, k: nat)
    requires 1 <= t < |path| && start <= path[t] < start + n + k
  {
    path[t - 1] == Source(start, n, k, path[t])
  }

  /** The path is a loop through exactly the slots of index i, each receiving from the one before. */
  ghost predicate IsCycle(path: Path, index: seq<nat>, i: nat, start: nat, n: nat, k: nat)
    requires start + n + k <= |index|
  {
    && IsLoop(path)
    && (forall t :: 0 <= t < |path| ==> start <= path[t] < start + n + k && index[path[t]] == i)
    && (forall t :: 1 <= t < |path| ==> FedBefore(path, t, start, n, k))
    && (forall q {:trigger OnPath(path, q)} :: start <= q < start + n + k && index[q] == i ==> OnPath(path, q))
  }

  /** The code's cyclelen. */
  function PerCycle(total: nat, cycles: nat): nat
    requires 0 < cycles
  {
    total / cycles
  }

  ghost function CycleLength(n: nat, k: nat): nat
    requires 0 < k
  {
    PerCycle(n + k, GcdOf(n, k))
  }

  ghost predicate HasCycle(index: seq<nat>, i: nat, start: nat, n: nat, k: nat)
    requires 0 < k && start + n + k <= |index|
  {
    exists path: Path :: IsCycle(path, index, i, start, n, k)
      && |path| == CycleLength(n, k) + 1 && path[0] == start + n + i
  }

  lemma CycleOf(index: seq<nat>, i: nat, start: nat, n: nat, k: nat) returns (path: Path)
    requires 0 < k && start + n + k <= |index| && HasCycle(index, i, start, n, k)
    ensures IsCycle(path, index, i, start, n, k) && |path| == CycleLength(n, k) + 1 && path[0] == start + n + i
  {
    path :| IsCycle(path, index, i, start, n, k) && |path| == CycleLength(n, k) + 1 && path[0] == start + n + i;
  }

  lemma PathLoops(start: nat, n: nat, k: nat, c: Cycles, i: nat, len: nat)
    requires Shape(n, k, c) && c.g <= k && len == c.x + c.y && i < c.g
    ensures IsLoop(PathOf(start, n, k, i, len))
  {
    var path := PathOf(start, n, k, i, len);
    SpotReturns(n, k, c, i);
    assert path[0] == start + n + i;
    forall t, t' | 0 <= t < t' < len
      ensures path[t] != path[t']
    {
      if path[t] == path[t'] { SpotsDistinct(n, k, c, i, t, i, t'); }
    }
  }

  lemma StepsMultiple(n: nat, k: nat, c: Cycles, p: nat, first: nat, t: nat, q: nat) returns (m: int)
    requires Shape(n, k, c)
    requires p + Times(n + k, q) == first + Times(k, t)
    ensures p - first == c.g * m
  {
    var l := LengthOf(n, k, c);
    TimesIsProduct(l, q);
    TimesIsProduct(k, t);
    m := (t * c.y) - (q * (c.x + c.y));
    Regroup(t, c.g, c.y);
    Regroup(q, c.g, c.x + c.y);
    assert c.g * m == c.g * (t * c.y) - c.g * (q * (c.x + c.y));
  }

  lemma Residue(g: nat, a: int, i: nat, m: int)
    requires i < g && a - i == g * m
    ensures a % g == i
  {
    SmallMultiple(g, a / g - m, i - a % g) by {
      assert a == g * (a / g) + a % g;
      assert g * (a / g - m) == g * (a / g) - g * m;
    }
  }

  lemma SpotCongruent(n: nat, k: nat, c: Cycles, p: nat, i: nat, t: nat, q: nat)
    requires Shape(n, k, c) && i < c.g
    requires p + Times(n + k, q) == n + i + Times(k, t)
    ensures (p - n) % c.g == i
  {
    var m := StepsMultiple(n, k, c, p, n + i, t, q);
    Residue(c.g, p - n, i, m);
  }

  lemma SpotResidue(n: nat, k: nat, c: Cycles, i: nat, t: nat)
    requires Shape(n, k, c) && i < c.g && i < k
    ensures (Spot(n, k, i, t) - n) % c.g == i
  {
    var q := SpotForm(n, k, i, t);
    SpotCongruent(n, k, c, Spot(n, k, i, t), i, t, q);
  }

  lemma PathCovers(start: nat, n: nat, k: nat, c: Cycles, i: nat, len: nat, q: nat)
    requires Shape(n, k, c) && c.g <= k && len == c.x + c.y && i < c.g
    requires start <= q < start + n + k && (q - start - n) % c.g == i
    ensures OnPath(PathOf(start, n, k, i, len), q)
  {
    var path := PathOf(start, n, k, i, len);
    var i', t := SpotsCover(n, k, c, q - start);
    SpotResidue(n, k, c, i', t);
    SpotReturns(n, k, c, i);
    assert path[if t == 0 then len else t] == q;
  }

  lemma CycleAt(start: nat, n: nat, k: nat, size: nat, i: nat) returns (path: Path)
    requires 0 < n && 0 < k && start + n + k <= size && i < GcdOf(n, k)
    ensures |path| == CycleLength(n, k) + 1 && path[0] == start + n + i
    ensures IsCycle(path, CycleIndex(start, n, GcdOf(n, k), size), i, start, n, k)
  {
    var c := ShapeOf(n, k);
    var len := c.x + c.y;
    var index := CycleIndex(start, n, c.g, size);
    path := PathOf(start, n, k, i, len);
    assert path[0] == start + n + i;
    PathLoops(start, n, k, c, i, len);
    forall t | 0 <= t <= len
      ensures index[path[t]] == i
    {
      SpotResidue(n, k, c, i, t);
    }
    forall t | 1 <= t <= len
      ensures FedBefore(path, t, start, n, k)
    {
      assert Spot(n, k, i, t) == Next(n, k, Spot(n, k, i, t - 1));
    }
    forall q | start <= q < start + n + k && index[q] == i
      ensures OnPath(path, q)
    {
      PathCovers(start, n, k, c, i, len, q);
    }
  }

  /** Every slot gets the index of its cycle; each cycle is as long as the code counts. */
  lemma CyclesIndexed(start: nat, n: nat, k: nat, size: nat) returns (index: seq<nat>)
    requires 0 < n && 0 < k && start + n + k <= size
    ensures |index| == size
    ensures forall q :: start <= q < start + n + k ==> index[q] < GcdOf(n, k)
    ensures forall i :: 0 <= i < GcdOf(n, k) ==> HasCycle(index, i, start, n, k)
  {
    index := CycleIndex(start, n, GcdOf(n, k), size);
    forall i | 0 <= i < GcdOf(n, k)
      ensures HasCycle(index, i, start, n, k)
    {
      var path := CycleAt(start, n, k, size, i);
    }
  }

  ghost predicate SameOutside<T>(now: seq<T>, was: seq<T>, start: nat, end: nat)
    requires start <= end <= |was| == |now|
  {
    && (forall p {:trigger now[p]} :: 0 <= p < start ==> now[p] == was[p])
    && (forall p {:trigger now[p]} :: end <= p < |was| ==> now[p] == was[p])
  }

  /** Cycles below `done` have been followed; those from `todo` on have not been touched. */
  ghost predicate Progress<T>(now: seq<T>, was: seq<T>, index: seq<nat>, start: nat, n: nat, k: nat, done: nat, todo: nat)
    requires start + n + k <= |was| == |index|
  {
    && |now| == |was|
    && SameOutside(now, was, start, start + n + k)
    && (forall q {:trigger index[q]} :: start <= q < start + n + k && index[q] < done ==> now[q] == was[Source(start, n, k, q)])
    && (forall q {:trigger index[q]} :: start <= q < start + n + k && todo <= index[q] ==> now[q] == was[q])
  }

  ghost predicate Shifted<T>(now: seq<T>, was: seq<T>, path: Path, t: nat)
    requires 1 <= t < |path| && path[t] < |now| && path[t - 1] < |was|
  {
    now[path[t]] == was[path[t - 1]]
  }

  /** The state of a cycle after j swaps through its first slot. */
  ghost predicate OnCourse<T>(now: seq<T>, was: seq<T>, path: Path, j: nat)
    requires IsLoop(path) && j < |path| && |was| == |now|
    requires forall t :: 0 <= t < |path| ==> path[t] < |was|
  {
    && (forall t :: 0 < t <= j && t < |path| - 1 ==> Shifted(now, was, path, t))
    && (forall t {:trigger now[path[t]]} :: j < t < |path| - 1 ==> now[path[t]] == was[path[t]])
    && now[path[0]] == was[path[if j < |path| - 1 then j else j - 1]]
  }

  ghost predicate Swapped<T>(before: seq<T>, after: seq<T>, p: nat, q: nat)
    requires p < |before| && q < |before|
  {
    && |after| == |before|
    && after[p] == before[q]
    && after[q] == before[p]
    && (forall x {:trigger after[x]} :: 0 <= x < |before| && x != p && x != q ==> after[x] == before[x])
  }

  /** One swap between the slot at step j + 1 and the first slot keeps the cycle on course. */
  lemma SwapStep<T>(before: seq<T>, after: seq<T>, was: seq<T>, path: Path, j: nat)
    requires IsLoop(path) && j + 1 < |path| && |was| == |before|
    requires forall t :: 0 <= t < |path| ==> path[t] < |was|
    requires OnCourse(before, was, path, j)
    requires Swapped(before, after, path[j + 1], path[0])
    ensures OnCourse(after, was, path, j + 1)
  {
    forall t | 0 < t <= j + 1 && t < |path| - 1
      ensures Shifted(after, was, path, t)
    {
      assert t <= j ==> Shifted(before, was, path, t);
    }
    assert 0 < j && j + 1 == |path| - 1 ==> Shifted(before, was, path, j);
  }

  /** The state inside cycle i after j swaps, with the other cycles. */
  ghost predicate Partway<T>(now: seq<T>, was: seq<T>, index: seq<nat>, start: nat, n: nat, k: nat, path: Path, i: nat, j: nat)
    requires start + n + k <= |was| == |index|
    requires IsCycle(path, index, i, start, n, k) && j < |path|
  {
    Progress(now, was, index, start, n, k, i, i + 1) && OnCourse(now, was, path, j)
  }

  lemma CycleBegins<T>(now: seq<T>, was: seq<T>, index: seq<nat>, start: nat, n: nat, k: nat, path: Path, i: nat)
    requires start + n + k <= |was| == |index|
    requires IsCycle(path, index, i, start, n, k) && 0 < |path|
    requires Progress(now, was, index, start, n, k, i, i)
    ensures Partway(now, was, index, start, n, k, path, i, 0)
  {
  }

  /** Once cycle i is complete, the progress covers it. */
  lemma CycleDone<T>(now: seq<T>, was: seq<T>, index: seq<nat>, start: nat, n: nat, k: nat, path: Path, i: nat)
    requires start + n + k <= |was| == |index|
    requires IsCycle(path, index, i, start, n, k) && 0 < |path|
    requires Partway(now, was, index, start, n, k, path, i, |path| - 1)
    ensures Progress(now, was, index, start, n, k, i + 1, i + 1)
  {
    forall q | start <= q < start + n + k && index[q] == i
      ensures now[q] == was[Source(start, n, k, q)]
    {
      assert OnPath(path, q);
      var t :| 1 <= t < |path| && path[t] == q;
      assert FedBefore(path, t, start, n, k);
      assert t < |path| - 1 ==> Shifted(now, was, path, t);
    }
  }

  lemma NothingMoved<T>(was: seq<T>, index: seq<nat>, start: nat, n: nat, k: nat)
    requires start + n + k <= |was| == |index|
    ensures Progress(was, was, index, start, n, k, 0, 0)
  {
  }

  /** When all cycles have been followed, the blocks have changed places. */
  lemma AllMoved<T>(now: seq<T>, was: seq<T>, index: seq<nat>, start: nat, n: nat, k: nat, g: nat)
    requires start + n + k <= |was| == |index|
    requires forall q :: start <= q < start + n + k ==> index[q] < g
    requires Progress(now, was, index, start, n, k, g, g)
    ensures now == Exchanged(was, start, start + n, start + n + k)
  {
    var r := Exchanged(was, start, start + n, start + n + k);
    assert |r| == |now|;
    forall q | 0 <= q < |now|
      ensures now[q] == r[q]
    {
      ExchangedAt(was, start, start + n, start + n + k, q);
      if start <= q < start + n + k {
        assert index[q] < g;
        assert now[q] == was[Source(start, n, k, q)];
      }
    }
  }

  lemma SwapProgress<T>(before: seq<T>, after: seq<T>, was: seq<T>, index: seq<nat>, start: nat, n: nat, k: nat, path: Path, i: nat, j: nat)
    requires start + n + k <= |was| == |index|
    requires IsCycle(path, index, i, start, n, k) && j + 1 < |path|
    requires Partway(before, was, index, start, n, k, path, i, j)
    requires path[j + 1] < |before| && path[0] < |before| && Swapped(before, after, path[j + 1], path[0])
    ensures |after| == |before| && Partway(after, was, index, start, n, k, path, i, j + 1)
  {
    SwapStep(before, after, was, path, j);
  }

  lemma NextSlot(path: Path, index: seq<nat>, i: nat, start: nat, n: nat, k: nat, j: nat)
    requires start + n + k <= |index|
    requires IsCycle(path, index, i, start, n, k) && j + 1 < |path|
    ensures path[j + 1] == if path[j] >= start + n then path[j] - n else path[j] + k
    ensures path[j + 1] < |index|
  {
    assert FedBefore(path, j + 1, start, n, k);
  }

  method PermuteArgs<T>(start: nat, mid: nat, end: nat, nargv: array<T>)
    requires start < mid < end <= nargv.Length
    modifies nargv
    ensures nargv[..] == Exchanged(old(nargv[..]), start, mid, end)
  {
    hide PerCycle, Progress, IsCycle, HasCycle, Exchanged, GcdOf, Partway;
    var nnonopts := mid - start;
    var nopts := end - mid;
    var ncycle := Gcd(nnonopts, nopts);
    var cyclelen := PerCycle(end - start, ncycle);
    ghost var was := nargv[..];
    ghost var index := CyclesIndexed(start, nnonopts, nopts, |was|);
    assert cyclelen == CycleLength(nnonopts, nopts);
    NothingMoved(was, index, start, nnonopts, nopts);
    for i := 0 to ncycle
      invariant Progress(nargv[..], was, index, start, nnonopts, nopts, i, i)
    {
      var cstart := mid + i;
      var pos := cstart;
      ghost var path := CycleOf(index, i, start, nnonopts, nopts);
      CycleBegins(nargv[..], was, index, start, nnonopts, nopts, path, i);
      for j := 0 to cyclelen
        invariant pos == path[j]
        invariant Partway(nargv[..], was, index, start, nnonopts, nopts, path, i, j)
      {
        ghost var before := nargv[..];
        NextSlot(path, index, i, start, nnonopts, nopts, j);
        if pos >= mid {
          pos := pos - nnonopts;
        } else {
          pos := pos + nopts;
        }
        var swap := nargv[pos];
        nargv[pos] := nargv[cstart];
        nargv[cstart] := swap;
        assert Swapped(before, nargv[..], pos, cstart);
        SwapProgress(before, nargv[..], was, index, start, nnonopts, nopts, path, i, j);
      }
      CycleDone(nargv[..], was, index, start, nnonopts, nopts, path, i);
    }
    AllMoved(nargv[..], was, index, start, nnonopts, nopts, ncycle);
  }
}
