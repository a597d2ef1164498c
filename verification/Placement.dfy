/** The usage table of CPU cores and the choice of a core for a new worker. */
module Placement {
  import opened Euclid
  import opened Wrappers

  datatype CpuInfo = CpuInfo(id: int, workers: int)

  type Cores = seq<CpuInfo>

  /** The first core with the least usage. */
  function LeastUsed(cores: Cores): (i: nat)
    requires cores != []
    ensures i < |cores|
    ensures forall j :: 0 <= j < |cores| ==> cores[i].workers <= cores[j].workers
    ensures forall j :: 0 <= j < i ==> cores[i].workers < cores[j].workers
  {
    if |cores| == 1 then 0
    else
      var i := LeastUsed(cores[..|cores| - 1]);
      if cores[|cores| - 1].workers < cores[i].workers then |cores| - 1 else i
  }

  /** The first core with the given id. */
  function FindCore(cores: Cores, id: int): (i: Option<nat>)
    ensures i.Some? ==> i.value < |cores| && cores[i.value].id == id && forall j :: 0 <= j < i.value ==> cores[j].id != id
    ensures i.None? <==> forall j :: 0 <= j < |cores| ==> cores[j].id != id
  {
    if cores == [] then None
    else if cores[0].id == id then Some(0)
    else
      match FindCore(cores[1..], id)
      case Some(i) => Some(i + 1)
      case None =>
        assert forall j :: 1 <= j < |cores| ==> cores[j] == cores[1..][j - 1];
        None
  }

  /** The core for a new worker: the requested one if it exists, the least used one if none is requested. */
  function Choose(cores: Cores, cpu: Option<int>): (i: Option<nat>)
    requires cpu.Some? || cores != []
    ensures i.Some? ==> i.value < |cores|
  {
    if cpu.Some? then FindCore(cores, cpu.value) else Some(LeastUsed(cores))
  }

  function Change(cores: Cores, i: nat, d: int): (r: Cores)
    requires i < |cores|
    ensures |r| == |cores|
  {
    cores[i := cores[i].(workers := cores[i].workers + d)]
  }

  function Total(cores: Cores): int {
    if cores == [] then 0 else Total(cores[..|cores| - 1]) + cores[|cores| - 1].workers
  }

  lemma {:induction false} ChangeTotal(cores: Cores, i: nat, d: int)
    requires i < |cores|
    ensures Total(Change(cores, i, d)) == Total(cores) + d
    decreases |cores|
  {
    var last := |cores| - 1;
    var r := Change(cores, i, d);
    if i == last {
      assert r[..last] == cores[..last];
    } else {
      ChangeTotal(cores[..last], i, d);
      assert r[..last] == Change(cores[..last], i, d);
    }
  }

  /** Taking a worker away again restores the table. */
  lemma ChangeBack(cores: Cores, i: nat, d: int)
    requires i < |cores|
    ensures Change(Change(cores, i, d), i, -d) == cores
  {
  }

  /** k placements without a requested core. */
  function AutoAdds(cores: Cores, k: nat): (r: Cores)
    requires cores != []
    ensures |r| == |cores|
  {
    if k == 0 then cores
    else
      var r := AutoAdds(cores, k - 1);
      Change(r, LeastUsed(r), 1)
  }

  lemma UniqueQuotient(k: nat, c: nat, q: nat, m: nat)
    requires 0 < c && m < c && k == q * c + m
    ensures k / c == q && k % c == m
  {
    assert k == (k / c) * c + k % c;
    SmallMultiple(c, k / c - q, m - k % c);
  }

  lemma NextQuotient(k: nat, c: nat)
    requires 0 < c
    ensures if k % c + 1 == c then (k + 1) / c == k / c + 1 && (k + 1) % c == 0
            else (k + 1) / c == k / c && (k + 1) % c == k % c + 1
  {
    var q, m := k / c, k % c;
    assert k + 1 == q * c + (m + 1);
    if m + 1 == c {
      assert k + 1 == (q + 1) * c;
      UniqueQuotient(k + 1, c, q + 1, 0);
    } else {
      UniqueQuotient(k + 1, c, q, m + 1);
    }
  }

  lemma ZeroQuotient(c: nat)
    requires 0 < c
    ensures 0 / c == 0 && 0 % c == 0
  {
  }

  /** With nothing placed yet, k placements go round the cores in order: core j has the quotient of
      k by the number of cores, and one more if j is below the remainder. */
  lemma {:induction false} RoundRobin(cores: Cores, k: nat)
    requires cores != []
    requires forall j :: 0 <= j < |cores| ==> cores[j].workers == 0
    ensures forall j :: 0 <= j < |cores| ==>
      AutoAdds(cores, k)[j] == CpuInfo(cores[j].id, k / |cores| + if j < k % |cores| then 1 else 0)
  {
    var c := |cores|;
    if k > 0 {
      RoundRobin(cores, k - 1);
      var r := AutoAdds(cores, k - 1);
      var q, m := (k - 1) / c, (k - 1) % c;
      assert LeastUsed(r) == m by {
        assert r[m].workers == q;
        assert forall j :: 0 <= j < m ==> r[j].workers == q + 1;
        assert r[LeastUsed(r)].workers <= r[m].workers;
      }
      NextQuotient(k - 1, c);
    } else {
      ZeroQuotient(c);
    }
  }

  /** No two cores differ in usage by more than d. */
  ghost predicate Spread(cores: Cores, d: int) {
    forall i, j :: 0 <= i < |cores| && 0 <= j < |cores| ==> cores[i].workers - cores[j].workers <= d
  }

  /** An automatic placement never widens a spread of one or more. */
  lemma AutoKeepsSpread(cores: Cores, d: int)
    requires cores != [] && 1 <= d && Spread(cores, d)
    ensures Spread(Change(cores, LeastUsed(cores), 1), d)
  {
  }
}
