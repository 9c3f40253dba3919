/** port_scanner.py `scan_port` and `_progress_decorator`: one task probes
    every protocol for one port, and each task that returns raises the
    shared counter COUNT by one. The worker pool is modelled as running the
    tasks one after another. */
module Probing {
  import opened Results

  /** The keys of PROTOCOL_HANDLING (socket_functions.py). */
  const HandledProtocols: set<string> := {"tcp", "udp"}

  /** A registry handler reached through its protocol name: whether `port`
      of `target` answers for `protocol`. Socket failures are already folded
      into `false` by the handlers. */
  type Probe = (string, string, int) -> bool

  /** Every name of the list is a key of the registry. */
  predicate AllHandled(protocols: seq<string>)
  {
    forall i :: 0 <= i < |protocols| ==> protocols[i] in HandledProtocols
  }

  /** `protocols[i]` is the first name the registry lookup fails on. */
  predicate FirstUnhandled(protocols: seq<string>, i: int)
    requires 0 <= i < |protocols|
  {
    protocols[i] !in HandledProtocols && forall j :: 0 <= j < i ==> protocols[j] in HandledProtocols
  }

  /** What `scan_port(target, port, protocols)` returns or raises: one
      result per protocol, in protocol order, or the KeyError of the first
      name missing from the registry. */
  function ProbeAll(probe: Probe, target: string, port: int, protocols: seq<string>): (r: Result<seq<bool>, ScanError>)
    ensures r.Ok? <==> AllHandled(protocols)
    ensures r.Ok? ==> |r.value| == |protocols|
    ensures r.Ok? ==> forall i :: 0 <= i < |protocols| ==> r.value[i] == probe(protocols[i], target, port)
    ensures r.Err? ==> exists i :: 0 <= i < |protocols| && FirstUnhandled(protocols, i) &&
                                   r.error == KeyError(protocols[i])
  {
    if |protocols| == 0 then Ok([])
    else
      var n := |protocols| - 1;
      match ProbeAll(probe, target, port, protocols[..n])
      case Err(e) =>
        assert forall i :: 0 <= i < n ==> protocols[..n][i] == protocols[i];
        Err(e)
      case Ok(rs) =>
        if protocols[n] in HandledProtocols then Ok(rs + [probe(protocols[n], target, port)])
        else Err(KeyError(protocols[n]))
  }

  lemma FirstUnhandledUnique(protocols: seq<string>, i: int, j: int)
    requires 0 <= i < |protocols| && 0 <= j < |protocols|
    requires FirstUnhandled(protocols, i) && FirstUnhandled(protocols, j)
    ensures i == j
  {
  }

  /** The body of `scan_port`: the loop appending one probe result per
      protocol. */
  method RunProbes(probe: Probe, target: string, port: int, protocols: seq<string>) returns (r: Result<seq<bool>, ScanError>)
    ensures r == ProbeAll(probe, target, port, protocols)
  {
    var results: seq<bool> := [];
    var i := 0;
    while i < |protocols|
      invariant 0 <= i <= |protocols|
      invariant |results| == i
      invariant forall j :: 0 <= j < i ==> protocols[j] in HandledProtocols
      invariant forall j :: 0 <= j < i ==> results[j] == probe(protocols[j], target, port)
    {
      if protocols[i] !in HandledProtocols {
        var e := ProbeAll(probe, target, port, protocols);
        var k :| 0 <= k < |protocols| && FirstUnhandled(protocols, k) && e.error == KeyError(protocols[k]);
        FirstUnhandledUnique(protocols, i, k);
        return Err(KeyError(protocols[i]));
      }
      results := results + [probe(protocols[i], target, port)];
      i := i + 1;
    }
    assert results == ProbeAll(probe, target, port, protocols).value;
    return Ok(results);
  }

  /** What the submitted tasks hold once they have run, one per port in
      port order. */
  function Tasks(probe: Probe, target: string, ports: seq<int>, protocols: seq<string>): (r: seq<Result<seq<bool>, ScanError>>)
    ensures |r| == |ports|
    ensures forall k :: 0 <= k < |ports| ==> r[k] == ProbeAll(probe, target, ports[k], protocols)
  {
    seq(|ports|, k requires 0 <= k < |ports| => ProbeAll(probe, target, ports[k], protocols))
  }

  /** The scanning state shared by the workers: COUNT. */
  class Scanner {
    /** Number of tasks that have completed. */
    var count: nat

    /** `setup`: COUNT starts at 0. */
    constructor ()
      ensures count == 0
    {
      count := 0;
    }

    /** The decorated `scan_port`: probe, then add one to COUNT. A task that
        raises leaves COUNT unchanged, since the increment comes after the
        call it wraps. */
    method ScanPort(probe: Probe, target: string, port: int, protocols: seq<string>) returns (r: Result<seq<bool>, ScanError>)
      modifies this
      ensures r == ProbeAll(probe, target, port, protocols)
      ensures count == old(count) + (if r.Ok? then 1 else 0)
    {
      r := RunProbes(probe, target, port, protocols);
      if r.Ok? {
        count := count + 1;
      }
    }

    /** The submission loop of `main` (lines 152-153) with every task run to
        its end: one task per port, in port order. Each port adds one to
        COUNT, so COUNT never exceeds the number of ports, and reaches it
        when every protocol is a registry key. */
    method ScanPorts(probe: Probe, target: string, ports: seq<int>, protocols: seq<string>) returns (futures: seq<Result<seq<bool>, ScanError>>)
      modifies this
      ensures futures == Tasks(probe, target, ports, protocols)
      ensures count == old(count) + (if AllHandled(protocols) then |ports| else 0)
    {
      futures := [];
      var k := 0;
      while k < |ports|
        invariant 0 <= k <= |ports|
        invariant |futures| == k
        invariant forall j :: 0 <= j < k ==> futures[j] == ProbeAll(probe, target, ports[j], protocols)
        invariant count == old(count) + (if AllHandled(protocols) then k else 0)
      {
        var f := ScanPort(probe, target, ports[k], protocols);
        futures := futures + [f];
        k := k + 1;
      }
    }
  }
}
