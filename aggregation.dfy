/** port_scanner.py `main`, lines 163-173: the per-port result vectors are
    read back in port order and turned into `(port, protocol)` pairs for the
    true entries; the pairs are then sorted. */
module Aggregation {
  import opened Results
  import opened Ordering

  /** The comprehension of line 167:
      `[(port, protocols[i]) for i in range(len(result)) if result[i]]`. */
  function Row(port: int, protocols: seq<string>, result: seq<bool>): (r: seq<Pair>)
    requires |result| <= |protocols|
    ensures |r| <= |result|
    ensures forall x :: x in r ==> x.0 == port
  {
    if |result| == 0 then []
    else
      var n := |result| - 1;
      Row(port, protocols, result[..n]) + (if result[n] then [(port, protocols[n])] else [])
  }

  /** Every vector has one entry per protocol, as `scan_port` returns. */
  predicate WellShaped(protocols: seq<string>, vectors: seq<seq<bool>>)
  {
    forall k :: 0 <= k < |vectors| ==> |vectors[k]| == |protocols|
  }

  /** `open_ports` after the loop of lines 165-168 has seen every port. */
  function OpenPairs(ports: seq<int>, protocols: seq<string>, vectors: seq<seq<bool>>): (r: seq<Pair>)
    requires |vectors| == |ports| && WellShaped(protocols, vectors)
    ensures |r| <= |ports| * |protocols|
    ensures forall x :: x in r ==> x.0 in ports
  {
    if |ports| == 0 then []
    else
      var n := |ports| - 1;
      OpenPairs(ports[..n], protocols, vectors[..n]) + Row(ports[n], protocols, vectors[n])
  }

  /** `res[ind].result()` read for every task in order: the values, or the
      exception of the first task that raised. */
  function Collect(futures: seq<Result<seq<bool>, ScanError>>): (r: Result<seq<seq<bool>>, ScanError>)
    ensures r.Ok? <==> forall k :: 0 <= k < |futures| ==> futures[k].Ok?
    ensures r.Ok? ==> |r.value| == |futures| && forall k :: 0 <= k < |futures| ==> r.value[k] == futures[k].value
    ensures r.Err? ==> exists k :: 0 <= k < |futures| && futures[k].Err? && r.error == futures[k].error &&
                                   forall j :: 0 <= j < k ==> futures[j].Ok?
  {
    if |futures| == 0 then Ok([])
    else
      var n := |futures| - 1;
      match Collect(futures[..n])
      case Err(e) =>
        assert forall k :: 0 <= k < n ==> futures[..n][k] == futures[k];
        Err(e)
      case Ok(vs) =>
        assert forall j :: 0 <= j < n ==> futures[j] == futures[..n][j];
        match futures[n]
        case Err(e) => Err(e)
        case Ok(v) => Ok(vs + [v])
  }

  lemma {:induction false} CollectPrefix(futures: seq<Result<seq<bool>, ScanError>>, k: nat)
    requires k <= |futures|
    requires Collect(futures[..k]).Err?
    ensures Collect(futures) == Collect(futures[..k])
  {
    if k < |futures| {
      var n := |futures| - 1;
      assert futures[..n][..k] == futures[..k];
      CollectPrefix(futures[..n], k);
      assert Collect(futures[..n]).Err?;
      assert Collect(futures) == Collect(futures[..n]);
    } else {
      assert futures[..k] == futures;
    }
  }

  /** The loop of lines 164-168: step `ind` through the tasks, in port
      order, extending `open_ports` with the pairs of each result; a task
      that raised makes `result()` raise. */
  method Aggregate(ports: seq<int>, protocols: seq<string>, futures: seq<Result<seq<bool>, ScanError>>)
    returns (r: Result<seq<Pair>, ScanError>)
    requires |futures| == |ports|
    requires forall k :: 0 <= k < |futures| && futures[k].Ok? ==> |futures[k].value| == |protocols|
    ensures r.Err? <==> Collect(futures).Err?
    ensures r.Err? ==> r == Err(Collect(futures).error)
    ensures r.Ok? ==> r.value == OpenPairs(ports, protocols, Collect(futures).value)
  {
    var openPorts: seq<Pair> := [];
    ghost var vectors: seq<seq<bool>> := [];
    var ind := 0;
    while ind < |ports|
      invariant 0 <= ind <= |ports|
      invariant Collect(futures[..ind]) == Ok(vectors)
      invariant |vectors| == ind && WellShaped(protocols, vectors)
      invariant openPorts == OpenPairs(ports[..ind], protocols, vectors)
    {
      assert futures[..ind + 1][..ind] == futures[..ind];
      match futures[ind]
      case Err(e) =>
        CollectPrefix(futures, ind + 1);
        return Err(e);
      case Ok(result) =>
        openPorts := openPorts + Row(ports[ind], protocols, result);
        assert ports[..ind + 1][..ind] == ports[..ind];
        assert (vectors + [result])[..ind] == vectors;
        vectors := vectors + [result];
        ind := ind + 1;
    }
    assert futures[..ind] == futures && ports[..ind] == ports;
    return Ok(openPorts);
  }

  /** A pair is in the row exactly when the result has `true` for an index
      whose protocol is the pair's protocol. */
  lemma {:induction false} RowMembers(port: int, protocols: seq<string>, result: seq<bool>, p: int, q: string)
    requires |result| <= |protocols|
    ensures (p, q) in Row(port, protocols, result) <==>
      p == port && exists i :: 0 <= i < |result| && protocols[i] == q && result[i]
  {
    if |result| > 0 {
      var n := |result| - 1;
      RowMembers(port, protocols, result[..n], p, q);
      if p == port && (exists i :: 0 <= i < |result| && protocols[i] == q && result[i]) {
        var i :| 0 <= i < |result| && protocols[i] == q && result[i];
        if i < n { assert result[..n][i] == result[i]; }
      }
    }
  }

  /** A pair is collected exactly when some port's vector has `true` at an
      index carrying that protocol: nothing is collected that no probe
      confirmed. */
  lemma {:induction false} OpenPairsMembers(ports: seq<int>, protocols: seq<string>, vectors: seq<seq<bool>>, p: int, q: string)
    requires |vectors| == |ports| && WellShaped(protocols, vectors)
    ensures (p, q) in OpenPairs(ports, protocols, vectors) <==>
      exists k, i :: 0 <= k < |ports| && 0 <= i < |protocols| && ports[k] == p && protocols[i] == q && vectors[k][i]
  {
    if |ports| > 0 {
      var n := |ports| - 1;
      assert WellShaped(protocols, vectors[..n]);
      OpenPairsMembers(ports[..n], protocols, vectors[..n], p, q);
      RowMembers(ports[n], protocols, vectors[n], p, q);
      if exists k, i :: 0 <= k < |ports| && 0 <= i < |protocols| && ports[k] == p && protocols[i] == q && vectors[k][i] {
        var k, i :| 0 <= k < |ports| && 0 <= i < |protocols| && ports[k] == p && protocols[i] == q && vectors[k][i];
        if k < n { assert ports[..n][k] == p && vectors[..n][k][i]; }
      }
    }
  }

  /** How many indices of `result` are true and carry protocol `q`. */
  function RowHits(protocols: seq<string>, result: seq<bool>, q: string): nat
    requires |result| <= |protocols|
  {
    if |result| == 0 then 0
    else
      var n := |result| - 1;
      RowHits(protocols, result[..n], q) + (if result[n] && protocols[n] == q then 1 else 0)
  }

  /** Summed over the ports equal to `p`: how many true entries carry `q`. */
  function Hits(ports: seq<int>, protocols: seq<string>, vectors: seq<seq<bool>>, p: int, q: string): nat
    requires |vectors| == |ports| && WellShaped(protocols, vectors)
  {
    if |ports| == 0 then 0
    else
      var n := |ports| - 1;
      Hits(ports[..n], protocols, vectors[..n], p, q) + (if ports[n] == p then RowHits(protocols, vectors[n], q) else 0)
  }

  lemma {:induction false} RowCount(port: int, protocols: seq<string>, result: seq<bool>, p: int, q: string)
    requires |result| <= |protocols|
    ensures multiset(Row(port, protocols, result))[(p, q)] == if p == port then RowHits(protocols, result, q) else 0
  {
    if |result| > 0 {
      RowCount(port, protocols, result[..|result| - 1], p, q);
    }
  }

  /** Multiplicity: each true entry contributes one copy of its pair, so a
      protocol named twice gives the pair twice. */
  lemma {:induction false} OpenPairsCount(ports: seq<int>, protocols: seq<string>, vectors: seq<seq<bool>>, p: int, q: string)
    requires |vectors| == |ports| && WellShaped(protocols, vectors)
    ensures multiset(OpenPairs(ports, protocols, vectors))[(p, q)] == Hits(ports, protocols, vectors, p, q)
  {
    if |ports| > 0 {
      var n := |ports| - 1;
      assert WellShaped(protocols, vectors[..n]);
      OpenPairsCount(ports[..n], protocols, vectors[..n], p, q);
      RowCount(ports[n], protocols, vectors[n], p, q);
    }
  }

  predicate Distinct<T(==)>(s: seq<T>)
  {
    forall i, j :: 0 <= i < j < |s| ==> s[i] != s[j]
  }

  lemma {:induction false} RowHitsDistinct(protocols: seq<string>, result: seq<bool>, i: nat)
    requires |result| <= |protocols| && Distinct(protocols) && i < |result|
    ensures RowHits(protocols, result, protocols[i]) == if result[i] then 1 else 0
  {
    var n := |result| - 1;
    if i < n {
      RowHitsDistinct(protocols, result[..n], i);
    } else {
      RowHitsNone(protocols, result[..n], protocols[i]);
    }
  }

  lemma {:induction false} RowHitsNone(protocols: seq<string>, result: seq<bool>, q: string)
    requires |result| <= |protocols|
    requires forall i :: 0 <= i < |result| ==> protocols[i] != q
    ensures RowHits(protocols, result, q) == 0
  {
    if |result| > 0 {
      RowHitsNone(protocols, result[..|result| - 1], q);
    }
  }

  lemma {:induction false} HitsOtherPorts(ports: seq<int>, protocols: seq<string>, vectors: seq<seq<bool>>, p: int, q: string)
    requires |vectors| == |ports| && WellShaped(protocols, vectors)
    requires p !in ports
    ensures Hits(ports, protocols, vectors, p, q) == 0
  {
    if |ports| > 0 {
      var n := |ports| - 1;
      assert WellShaped(protocols, vectors[..n]);
      HitsOtherPorts(ports[..n], protocols, vectors[..n], p, q);
    }
  }

  /** With distinct ports and distinct protocols, a true probe gives its
      pair exactly once and a false one never. */
  lemma {:induction false} ExactlyOnce(ports: seq<int>, protocols: seq<string>, vectors: seq<seq<bool>>, k: nat, i: nat)
    requires |vectors| == |ports| && WellShaped(protocols, vectors)
    requires Distinct(ports) && Distinct(protocols)
    requires k < |ports| && i < |protocols|
    ensures multiset(OpenPairs(ports, protocols, vectors))[(ports[k], protocols[i])] == if vectors[k][i] then 1 else 0
  {
    OpenPairsCount(ports, protocols, vectors, ports[k], protocols[i]);
    HitsAt(ports, protocols, vectors, k, i);
  }

  lemma {:induction false} HitsAt(ports: seq<int>, protocols: seq<string>, vectors: seq<seq<bool>>, k: nat, i: nat)
    requires |vectors| == |ports| && WellShaped(protocols, vectors)
    requires Distinct(ports) && Distinct(protocols)
    requires k < |ports| && i < |protocols|
    ensures Hits(ports, protocols, vectors, ports[k], protocols[i]) == if vectors[k][i] then 1 else 0
  {
    var n := |ports| - 1;
    assert WellShaped(protocols, vectors[..n]);
    RowHitsDistinct(protocols, vectors[n], i);
    if k < n {
      assert ports[..n][k] == ports[k] && vectors[..n][k] == vectors[k];
      HitsAt(ports[..n], protocols, vectors[..n], k, i);
    } else {
      HitsOtherPorts(ports[..n], protocols, vectors[..n], ports[k], protocols[i]);
    }
  }

  /** A protocol given twice yields its open pair twice. */
  lemma DuplicateProtocolDuplicatesPair()
    ensures OpenPairs([22], ["tcp", "tcp"], [[true, true]]) == [(22, "tcp"), (22, "tcp")]
  {
    assert [true, true][..1] == [true];
    assert [true][..0] == [];
    assert [22][..0] == [];
    assert [[true, true]][..0] == [];
    assert Row(22, ["tcp", "tcp"], [true]) == [(22, "tcp")];
    assert Row(22, ["tcp", "tcp"], [true, true]) == [(22, "tcp"), (22, "tcp")];
  }
}
