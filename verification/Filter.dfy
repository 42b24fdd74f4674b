/** The weighted client filter: percentages per client turned into a table of
    100 slots, one of which is drawn for every new source address. */
module Filter {
  import opened Common

  const TOTAL: nat := 100
  const WORD: nat := 0x1_0000_0000

  function Sum(ws: seq<int>): int
  {
    if ws == [] then 0 else Sum(ws[..|ws| - 1]) + ws[|ws| - 1]
  }

  function Count(table: seq<int>, i: int): nat
  {
    if table == [] then 0
    else Count(table[..|table| - 1], i) + (if table[|table| - 1] == i then 1 else 0)
  }

  predicate NonNegative(ws: seq<int>)
  {
    forall i | 0 <= i < |ws| :: ws[i] >= 0
  }

  predicate NonDecreasing(table: seq<int>)
  {
    forall i, j | 0 <= i < j < |table| :: table[i] <= table[j]
  }

  /** The slots that the weights prescribe: weight[0] zeros, weight[1] ones and
      so on. */
  function Slots(ws: seq<int>): seq<int>
    requires NonNegative(ws)
  {
    if ws == [] then []
    else
      var n := |ws| - 1;
      Slots(ws[..n]) + seq(ws[n], _ => n)
  }

  lemma {:induction false} SlotsLength(ws: seq<int>)
    requires NonNegative(ws)
    ensures |Slots(ws)| == Sum(ws)
  {
    if ws != [] {
      SlotsLength(ws[..|ws| - 1]);
    }
  }

  lemma {:induction false} SlotsOrdered(ws: seq<int>)
    requires NonNegative(ws)
    ensures NonDecreasing(Slots(ws))
    ensures forall j | 0 <= j < |Slots(ws)| :: 0 <= Slots(ws)[j] < |ws|
  {
    if ws != [] {
      SlotsOrdered(ws[..|ws| - 1]);
    }
  }

  lemma {:induction false} CountConcat(a: seq<int>, b: seq<int>, i: int)
    ensures Count(a + b, i) == Count(a, i) + Count(b, i)
  {
    if b == [] {
      assert a + b == a;
    } else {
      var n := |b| - 1;
      CountConcat(a, b[..n], i);
      assert (a + b)[..|a + b| - 1] == a + b[..n];
    }
  }

  lemma {:induction false} CountRun(n: nat, v: int, i: int)
    ensures Count(seq(n, _ => v), i) == if v == i then n else 0
  {
    if n > 0 {
      CountRun(n - 1, v, i);
      assert seq(n, _ => v)[..n - 1] == seq(n - 1, _ => v);
    }
  }

  lemma {:induction false} SlotsCount(ws: seq<int>, i: nat)
    requires NonNegative(ws)
    ensures Count(Slots(ws), i) == if i < |ws| then ws[i] else 0
  {
    if ws != [] {
      var n := |ws| - 1;
      SlotsCount(ws[..n], i);
      CountConcat(Slots(ws[..n]), seq(ws[n], _ => n), i);
      CountRun(ws[n], n, i);
    }
  }

  // ----- the table the loops fill -------------------------------------------

  /** The last client whose range of slots, computed with 32-bit wrap-around, covers
      `j`. */
  function SlotAt(ws: seq<int>, j: nat): int
  {
    if ws == [] then -1
    else
      var n := |ws| - 1;
      if Sum(ws[..n]) % WORD <= j < Sum(ws) % WORD then n else SlotAt(ws[..n], j)
  }

  function TableOf(ws: seq<int>): (table: seq<int>)
    ensures |table| == TOTAL && forall j | 0 <= j < TOTAL :: table[j] == SlotAt(ws, j)
  {
    seq(TOTAL, j requires 0 <= j < TOTAL => SlotAt(ws, j))
  }

  /** Whatever the signs of the weights, every slot below their total names a
      client. */
  lemma {:induction false} SlotNamesClient(ws: seq<int>, j: nat)
    requires j < Sum(ws) % WORD
    ensures 0 <= SlotAt(ws, j) < |ws|
  {
    var n := |ws| - 1;
    if j < Sum(ws[..n]) % WORD {
      SlotNamesClient(ws[..n], j);
    }
  }

  /** Without negative weights the table is the prescribed one. */
  lemma {:induction false} SlotAtIsSlot(ws: seq<int>, j: nat)
    requires NonNegative(ws) && j < Sum(ws) <= TOTAL
    ensures j < |Slots(ws)| && SlotAt(ws, j) == Slots(ws)[j]
  {
    var n := |ws| - 1;
    SlotsLength(ws);
    SlotsLength(ws[..n]);
    SumGrows(ws, n);
    if j < Sum(ws[..n]) {
      SlotAtIsSlot(ws[..n], j);
    }
  }

  class ClientFilter {
    var numClients: nat
    var totalWeight: int
    var weight: seq<int>
    var clientIndex: array<int>

    ghost predicate Valid()
      reads this, clientIndex
    {
      clientIndex[..] == TableOf(weight)
    }

    /** `Set` with a filter string whose comma-separated fields `stoi` converts to
        `fields`, or rejects: reads the weights, then fills the table. */
    constructor (numClients: nat, fields: seq<Option<int>>)
      ensures this.numClients == numClients
      ensures weight == Weights(numClients, Numbers(fields))
      ensures totalWeight == Sum(Numbers(fields)[..Least(|Numbers(fields)|, numClients)])
      ensures fresh(clientIndex) && Valid()
    {
      this.numClients := numClients;
      totalWeight := 0;
      weight := seq(numClients, _ => -1);
      clientIndex := new int[TOTAL](_ => -1);
      new;
      var ok := ReadWeights(fields);
      FillIndex();
    }

    /** `GetWeightByString`: a field that `stoi` rejects ends the loop; the weights
        before it stay. */
    method ReadWeights(fields: seq<Option<int>>) returns (ok: bool)
      requires totalWeight == 0 && weight == seq(numClients, _ => -1)
      modifies this`weight, this`totalWeight
      ensures ok <==> forall k | 0 <= k < |fields| && k < numClients :: fields[k].Some?
      ensures weight == Weights(numClients, Numbers(fields))
      ensures totalWeight == Sum(Numbers(fields)[..Least(|Numbers(fields)|, numClients)])
    {
      hide Sum, Numbers;
      ghost var ns := Numbers(fields);
      SumNone(ns);
      var i := 0;
      while i < |fields| && i < |weight|
        invariant 0 <= i <= |ns| && i <= |weight| == numClients
        invariant weight == ns[..i] + seq(numClients - i, _ => -1)
        invariant totalWeight == Sum(ns[..i])
      {
        if fields[i].None? {
          return false;
        }
        SumSnoc(ns, i);
        weight := weight[i := fields[i].value];
        totalWeight := totalWeight + weight[i];
        i := i + 1;
      }
      return true;
    }

    /** The second half of `Init`: bounds are 32-bit unsigned and wrap. */
    method FillIndex()
      requires clientIndex.Length == TOTAL && clientIndex[..] == seq(TOTAL, _ => -1)
      modifies clientIndex
      ensures Valid()
    {
      hide Sum, SlotAt;
      SlotAtNone(weight);
      var start, end := 0, 0;
      var i := 0;
      assert forall k | 0 <= k < TOTAL :: clientIndex[k] == clientIndex[..][k] == -1;
      while i < |weight|
        invariant 0 <= i <= |weight|
        invariant start == Sum(weight[..i]) % WORD
        invariant forall k | 0 <= k < TOTAL :: clientIndex[k] == SlotAt(weight[..i], k)
      {
        SumSnoc(weight, i);
        WrapTwice(Sum(weight[..i]), weight[i]);
        end := (start + weight[i]) % WORD;
        var j := start;
        while j < clientIndex.Length && j < end
          invariant start <= j && (if start <= end then j <= end else j == start)
          invariant forall k | 0 <= k < TOTAL :: clientIndex[k] == if start <= k < j then i else SlotAt(weight[..i], k)
        {
          clientIndex[j] := i;
          j := j + 1;
        }
        forall k | 0 <= k < TOTAL ensures clientIndex[k] == SlotAt(weight[..i + 1], k) {
          SlotAtSnoc(weight, i, k);
        }
        start := end;
        i := i + 1;
      }
      assert weight[..|weight|] == weight;
    }

    /** `ValidateWeight` */
    method ValidateWeight() returns (ok: bool)
      ensures ok <==> (forall i | 0 <= i < |weight| :: weight[i] != -1) && totalWeight == TOTAL
    {
      var n := 0;
      for i := 0 to |weight|
        invariant n >= 0
        invariant n == 0 <==> forall k | 0 <= k < i :: weight[k] != -1
      {
        if weight[i] == -1 {
          n := n + 1;
        }
      }
      ok := n == 0 && totalWeight == TOTAL;
    }

    /** The client of slot `i`: for every accepted filter a configured one. */
    method GetClientIndex(i: int) returns (idx: int)
      requires Valid()
      ensures idx == -1 <== i < 0 || i >= TOTAL
      ensures 0 <= i < TOTAL && Sum(weight) == TOTAL ==> 0 <= idx < |weight|
      ensures 0 <= i < TOTAL && Sum(weight) == TOTAL && NonNegative(weight) ==>
                i < |Slots(weight)| && idx == Slots(weight)[i]
    {
      if i < 0 || i >= TOTAL {
        return -1;
      }
      idx := clientIndex[i];
      assert idx == clientIndex[..][i];
      if Sum(weight) == TOTAL {
        SlotNamesClient(weight, i);
        if NonNegative(weight) { SlotAtIsSlot(weight, i); }
      }
    }
  }

  lemma WrapTwice(a: int, b: int)
    ensures (a % WORD + b) % WORD == (a + b) % WORD
  {
  }

  lemma SumNone(ws: seq<int>)
    ensures Sum(ws[..0]) == 0
  {
  }

  lemma SumSnoc(ws: seq<int>, i: nat)
    requires i < |ws|
    ensures Sum(ws[..i + 1]) == Sum(ws[..i]) + ws[i]
  {
    assert ws[..i + 1][..i] == ws[..i];
  }

  lemma SlotAtNone(ws: seq<int>)
    ensures Sum(ws[..0]) == 0 && forall j: nat :: SlotAt(ws[..0], j) == -1
  {
  }

  lemma SlotAtSnoc(ws: seq<int>, i: nat, j: nat)
    requires i < |ws|
    ensures SlotAt(ws[..i + 1], j) ==
      if Sum(ws[..i]) % WORD <= j < Sum(ws[..i + 1]) % WORD then i else SlotAt(ws[..i], j)
  {
    assert ws[..i + 1][..i] == ws[..i];
  }

  /** The numbers before the first field that is none. */
  function Numbers(fields: seq<Option<int>>): (ns: seq<int>)
    ensures |ns| <= |fields| && forall k | 0 <= k < |ns| :: fields[k] == Some(ns[k])
    ensures |ns| < |fields| ==> fields[|ns|].None?
  {
    if fields == [] || fields[0].None? then [] else [fields[0].value] + Numbers(fields[1..])
  }

  function Least(a: nat, b: nat): nat { if a < b then a else b }

  function Weights(n: nat, fields: seq<int>): (ws: seq<int>)
    ensures |ws| == n
  {
    var k := Least(|fields|, n);
    fields[..k] + seq(n - k, _ => -1)
  }

  /** What `ValidateWeight` accepts. */
  predicate Accepted(n: nat, fields: seq<int>)
  {
    && (forall i | 0 <= i < n :: Weights(n, fields)[i] != -1)
    && Sum(fields[..Least(|fields|, n)]) == TOTAL
  }

  lemma ShortIsRejected(n: nat, fields: seq<int>)
    requires |fields| < n
    ensures !Accepted(n, fields)
  {
    assert Weights(n, fields)[|fields|] == -1;
  }

  lemma AcceptedMeansComplete(n: nat, fields: seq<int>)
    requires Accepted(n, fields)
    ensures |fields| >= n && Weights(n, fields) == fields[..n] && Sum(Weights(n, fields)) == TOTAL
  {
    if |fields| < n {
      ShortIsRejected(n, fields);
      assert false;
    }
    assert Weights(n, fields) == fields[..n];
  }

  lemma {:induction false} SumGrows(ws: seq<int>, i: nat)
    requires NonNegative(ws) && i <= |ws|
    ensures Sum(ws[..i]) <= Sum(ws)
  {
    if i < |ws| {
      var n := |ws| - 1;
      SumGrows(ws[..n], i);
      assert ws[..n][..i] == ws[..i];
    } else {
      assert ws[..i] == ws;
    }
  }

  /** Client i occupies exactly ws[i] slots. */
  predicate Honours(table: seq<int>, ws: seq<int>)
  {
    forall i | 0 <= i < |ws| :: Count(table, i) == ws[i]
  }

  /** The table of every accepted filter is total: each slot names a configured
      client, whatever the signs of the weights. */
  lemma TableIsTotal(n: nat, fields: seq<int>, j: nat)
    requires Accepted(n, fields) && j < TOTAL
    ensures 0 <= TableOf(Weights(n, fields))[j] < n
  {
    AcceptedMeansComplete(n, fields);
    SlotNamesClient(Weights(n, fields), j);
  }

  /** With non-negative weights it is also non-decreasing and gives client i exactly
      weight[i] of the 100 slots. */
  lemma TableAgreesWithWeights(n: nat, fields: seq<int>)
    requires Accepted(n, fields) && NonNegative(Weights(n, fields))
    ensures var table := TableOf(Weights(n, fields)); NonDecreasing(table) && Honours(table, Weights(n, fields))
  {
    hide Sum, SlotAt, Slots;
    AcceptedMeansComplete(n, fields);
    var ws := Weights(n, fields);
    SlotsLength(ws);
    SlotsOrdered(ws);
    forall j | 0 <= j < TOTAL ensures TableOf(ws)[j] == Slots(ws)[j] {
      SlotAtIsSlot(ws, j);
    }
    assert TableOf(ws) == Slots(ws);
    forall i | 0 <= i < n ensures Count(TableOf(ws), i) == ws[i] {
      SlotsCount(ws, i);
    }
  }

  /** `ValidateWeight` only looks for -1, so it lets other negative weights through.
      The table that `Init` fills honours the weights of an accepted filter exactly
      when there are none. */
  lemma TableHonoursIff(n: nat, fields: seq<int>)
    requires Accepted(n, fields)
    ensures Honours(TableOf(Weights(n, fields)), Weights(n, fields)) <==> NonNegative(Weights(n, fields))
  {
    if NonNegative(Weights(n, fields)) {
      TableAgreesWithWeights(n, fields);
    }
  }

  lemma NegativeWeightAccepted()
    ensures Accepted(2, [-50, 150]) && !NonNegative(Weights(2, [-50, 150]))
  {
    var fields := [-50, 150];
    assert fields[..2] == fields && fields[..1] == [-50];
    assert Sum(fields) == Sum(fields[..1]) + 150;
    assert Sum([-50]) == Sum([-50][..0]) - 50;
    assert Weights(2, fields) == fields;
  }

  /** The index drawn for the k-th new source: through the table when a filter is
      set, uniformly otherwise. Both distributions are oracles. */
  function Chooser(filterSet: bool, table: seq<int>, uniformFilter: nat -> int, uniformClient: nat -> int): nat -> int
  {
    (k: nat) =>
      if filterSet then
        var i := uniformFilter(k);
        if 0 <= i < |table| then table[i] else -1
      else uniformClient(k)
  }

  /** With `n` clients connected the range check of the router never fails, for any
      accepted filter. */
  lemma ChooserInRange(n: nat, fields: seq<int>, table: seq<int>, filterSet: bool,
                       uniformFilter: nat -> int, uniformClient: nat -> int, k: nat)
    requires n > 0 && 0 <= uniformFilter(k) < TOTAL && 0 <= uniformClient(k) < n
    requires filterSet ==> Accepted(n, fields) && table == TableOf(Weights(n, fields))
    ensures 0 <= Chooser(filterSet, table, uniformFilter, uniformClient)(k) < n
  {
    if filterSet {
      TableIsTotal(n, fields, uniformFilter(k));
    }
  }

  function Places(table: seq<int>, c: int): set<int> { set i | 0 <= i < |table| && table[i] == c }

  /** How often a number occurs in a table is the number of its places. */
  lemma {:induction false} CountIsPlaces(table: seq<int>, c: int)
    ensures Count(table, c) == |Places(table, c)|
  {
    if table != [] {
      var n := |table| - 1;
      CountIsPlaces(table[..n], c);
      assert n !in Places(table[..n], c);
      if table[n] == c {
        assert Places(table, c) == Places(table[..n], c) + {n};
      } else {
        assert Places(table, c) == Places(table[..n], c);
      }
    }
  }

  /** With a filter set, client `c` is chosen for exactly weight[c] of the 100 values of the draw; without
      one, the uniform draw decides. */
  lemma FilterDrawsByWeight(n: nat, fields: seq<int>, c: nat, uniformFilter: nat -> int, uniformClient: nat -> int, k: nat)
      returns (draws: set<int>)
    requires Accepted(n, fields) && NonNegative(Weights(n, fields)) && c < n
    ensures |fields| >= n && |draws| == fields[c] && forall i | i in draws :: 0 <= i < 100
    ensures var table := TableOf(Weights(n, fields));
            && (Chooser(true, table, uniformFilter, uniformClient)(k) == c <==> uniformFilter(k) in draws)
            && Chooser(false, table, uniformFilter, uniformClient)(k) == uniformClient(k)
  {
    hide SlotAt, Count;
    var table := TableOf(Weights(n, fields));
    AcceptedMeansComplete(n, fields);
    TableAgreesWithWeights(n, fields);
    CountIsPlaces(table, c);
    draws := Places(table, c);
    assert Weights(n, fields)[c] == fields[c];
  }

  /** What is accepted: enough fields, none of the first `n` equal to -1, and their sum 100. */
  lemma AcceptedIff(n: nat, fields: seq<int>)
    ensures Accepted(n, fields) <==>
              |fields| >= n && (forall i | 0 <= i < n :: fields[i] != -1) && Sum(fields[..n]) == 100
  {
    if |fields| < n {
      ShortIsRejected(n, fields);
    } else {
      assert Weights(n, fields) == fields[..n];
    }
  }
}
