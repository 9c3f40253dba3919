/** port_scanner.py `main`: submit one task per port, wait for them, read
    their results in port order, and sort the open `(port, protocol)`
    pairs. The tasks run one after another here. */
module Scan {
  import opened Results
  import opened Config
  import opened Probing
  import opened Ordering
  import opened Aggregation

  /** The probe answers for every port and protocol, port by port. */
  function Matrix(probe: Probe, target: string, ports: seq<int>, protocols: seq<string>): (m: seq<seq<bool>>)
    ensures |m| == |ports| && WellShaped(protocols, m)
  {
    seq(|ports|, k requires 0 <= k < |ports| =>
      seq(|protocols|, i requires 0 <= i < |protocols| => probe(protocols[i], target, ports[k])))
  }

  /** What a whole scan ends in: the KeyError of the first name missing
      from the registry, as soon as there is a port to scan, or the sorted
      open pairs. A thread count of 0 or less makes the worker pool of
      line 149 raise ValueError before any task is submitted. */
  function ScanOutcome(probe: Probe, args: Args): (r: Result<seq<Pair>, ScanError>)
    ensures r.Err? ==> r.error.KeyError? || r.error.ValueError?
    ensures r.Err? && r.error.ValueError? <==> args.threads <= 0
    ensures r.Ok? ==> Sorted(r.value)
  {
    if args.threads <= 0 then
      Err(ValueError(NoWorkers))
    else if |args.ports| > 0 && !AllHandled(args.protocols) then
      Err(ProbeAll(probe, args.target, args.ports[0], args.protocols).error)
    else
      var pairs := OpenPairs(args.ports, args.protocols, Matrix(probe, args.target, args.ports, args.protocols));
      SortCorrect(pairs);
      Ok(Sort(pairs))
  }

  /** The message of the ValueError the worker pool raises when it is
      asked for no workers. */
  const NoWorkers: string := "max_workers must be greater than 0"

  /** The results the tasks hold, read back in port order, are the probe
      answers; a task that raised makes the read raise. */
  lemma CollectTasks(probe: Probe, target: string, ports: seq<int>, protocols: seq<string>)
    ensures Collect(Tasks(probe, target, ports, protocols)).Ok? <==> (|ports| == 0 || AllHandled(protocols))
    ensures Collect(Tasks(probe, target, ports, protocols)).Ok? ==>
      Collect(Tasks(probe, target, ports, protocols)).value == Matrix(probe, target, ports, protocols)
    ensures Collect(Tasks(probe, target, ports, protocols)).Err? ==>
      Collect(Tasks(probe, target, ports, protocols)).error == ProbeAll(probe, target, ports[0], protocols).error
  {
    var ts := Tasks(probe, target, ports, protocols);
    var c := Collect(ts);
    if |ports| > 0 && !AllHandled(protocols) {
      assert ts[0].Err?;
      var k :| 0 <= k < |ts| && ts[k].Err? && c.error == ts[k].error;
      ProbeAllErrorSame(probe, target, ports[0], ports[k], protocols);
    }
    if c.Ok? {
      var m := Matrix(probe, target, ports, protocols);
      forall k | 0 <= k < |ports|
        ensures c.value[k] == m[k]
      {
        assert c.value[k] == ProbeAll(probe, target, ports[k], protocols).value;
      }
    }
  }

  /** The exception a task raises does not depend on its port. */
  lemma ProbeAllErrorSame(probe: Probe, target: string, p1: int, p2: int, protocols: seq<string>)
    requires !AllHandled(protocols)
    ensures ProbeAll(probe, target, p1, protocols) == ProbeAll(probe, target, p2, protocols)
  {
    var r1 := ProbeAll(probe, target, p1, protocols);
    var r2 := ProbeAll(probe, target, p2, protocols);
    var i :| 0 <= i < |protocols| && FirstUnhandled(protocols, i) && r1.error == KeyError(protocols[i]);
    var j :| 0 <= j < |protocols| && FirstUnhandled(protocols, j) && r2.error == KeyError(protocols[j]);
    FirstUnhandledUnique(protocols, i, j);
  }

  /** `main` from line 147 on: a fresh counter, one task per port, the
      result loop and the sort. `completed` is COUNT once every task has
      run. */
  method RunScan(probe: Probe, args: Args) returns (r: Result<seq<Pair>, ScanError>, completed: nat)
    ensures r == ScanOutcome(probe, args)
    ensures completed == if args.threads > 0 && AllHandled(args.protocols) then |args.ports| else 0
  {
    var scanner := new Scanner();
    if args.threads <= 0 {
      return Err(ValueError(NoWorkers)), scanner.count;
    }
    var futures := scanner.ScanPorts(probe, args.target, args.ports, args.protocols);
    var collected := Aggregate(args.ports, args.protocols, futures);
    completed := scanner.count;
    CollectTasks(probe, args.target, args.ports, args.protocols);
    match collected
    case Err(e) =>
      r := Err(e);
    case Ok(openPorts) =>
      r := Ok(Sort(openPorts));
  }

  /** What a scan promises: it fails only on a thread count of 0 or less or
      on a name missing from the registry; otherwise the list is sorted, holds `(port, protocol)` just
      when the probe said open, with one copy per true entry, and nothing
      else. */
  lemma ScanOutcomeSpec(probe: Probe, args: Args)
    ensures ScanOutcome(probe, args).Err? <==> args.threads <= 0 || (|args.ports| > 0 && !AllHandled(args.protocols))
    ensures args.threads <= 0 ==> ScanOutcome(probe, args) == Err(ValueError(NoWorkers))
    ensures ScanOutcome(probe, args).Err? && args.threads > 0 ==>
      exists i :: 0 <= i < |args.protocols| && args.protocols[i] !in HandledProtocols &&
                  ScanOutcome(probe, args).error == KeyError(args.protocols[i])
    ensures ScanOutcome(probe, args).Ok? ==>
      var open := ScanOutcome(probe, args).value;
      var m := Matrix(probe, args.target, args.ports, args.protocols);
      && Sorted(open)
      && multiset(open) == multiset(OpenPairs(args.ports, args.protocols, m))
      && (forall k, i :: 0 <= k < |args.ports| && 0 <= i < |args.protocols| ==>
            ((args.ports[k], args.protocols[i]) in open <==> probe(args.protocols[i], args.target, args.ports[k])))
  {
    var r := ScanOutcome(probe, args);
    if r.Ok? {
      var m := Matrix(probe, args.target, args.ports, args.protocols);
      SortCorrect(OpenPairs(args.ports, args.protocols, m));
      forall k, i | 0 <= k < |args.ports| && 0 <= i < |args.protocols|
        ensures (args.ports[k], args.protocols[i]) in r.value <==> probe(args.protocols[i], args.target, args.ports[k])
      {
        ListedIffOpen(probe, args, k, i);
      }
    } else if args.threads > 0 {
      var e := ProbeAll(probe, args.target, args.ports[0], args.protocols);
      var i :| 0 <= i < |args.protocols| && FirstUnhandled(args.protocols, i) && e.error == KeyError(args.protocols[i]);
    }
  }

  /** One port and protocol: listed exactly when the probe said open. */
  lemma ListedIffOpen(probe: Probe, args: Args, k: nat, i: nat)
    requires ScanOutcome(probe, args).Ok?
    requires k < |args.ports| && i < |args.protocols|
    ensures (args.ports[k], args.protocols[i]) in ScanOutcome(probe, args).value <==>
            probe(args.protocols[i], args.target, args.ports[k])
  {
    var m := Matrix(probe, args.target, args.ports, args.protocols);
    var pairs := OpenPairs(args.ports, args.protocols, m);
    SortCorrect(pairs);
    var p, q := args.ports[k], args.protocols[i];
    OpenPairsMembers(args.ports, args.protocols, m, p, q);
    assert (p, q) in ScanOutcome(probe, args).value <==> (p, q) in multiset(pairs);
    if (p, q) in pairs {
      var k', i' :| 0 <= k' < |args.ports| && 0 <= i' < |args.protocols| &&
                    args.ports[k'] == p && args.protocols[i'] == q && m[k'][i'];
      assert m[k'][i'] == probe(q, args.target, p);
    }
    if probe(q, args.target, p) {
      assert m[k][i];
    }
  }

  /** Every listed pair was confirmed open by a probe. */
  lemma ScanOutcomeSound(probe: Probe, args: Args, x: Pair)
    requires ScanOutcome(probe, args).Ok? && x in ScanOutcome(probe, args).value
    ensures exists k, i ::
      && 0 <= k < |args.ports| && 0 <= i < |args.protocols|
      && x == (args.ports[k], args.protocols[i])
      && probe(args.protocols[i], args.target, args.ports[k])
  {
    var m := Matrix(probe, args.target, args.ports, args.protocols);
    var pairs := OpenPairs(args.ports, args.protocols, m);
    SortCorrect(pairs);
    assert x in multiset(pairs);
    OpenPairsMembers(args.ports, args.protocols, m, x.0, x.1);
    var k, i :| 0 <= k < |args.ports| && 0 <= i < |args.protocols| &&
                args.ports[k] == x.0 && args.protocols[i] == x.1 && m[k][i];
  }

  /** For the port range of `get_args` and distinct protocol names, an
      open pair is listed exactly once and a closed one never. */
  lemma ScanListsOnce(probe: Probe, args: Args, start: int, end: int, k: nat, i: nat)
    requires args.ports == PortRange(start, end) && Distinct(args.protocols)
    requires ScanOutcome(probe, args).Ok?
    requires k < |args.ports| && i < |args.protocols|
    ensures multiset(ScanOutcome(probe, args).value)[(args.ports[k], args.protocols[i])] ==
      if probe(args.protocols[i], args.target, args.ports[k]) then 1 else 0
  {
    var m := Matrix(probe, args.target, args.ports, args.protocols);
    SortCorrect(OpenPairs(args.ports, args.protocols, m));
    ExactlyOnce(args.ports, args.protocols, m, k, i);
  }

  /** Scenario: ports 20-22, TCP only, only port 22 answering. */
  lemma OnlyPort22Open()
    ensures ScanOutcome((protocol: string, target: string, port: int) => port == 22,
                        Args("host", [20, 21, 22], 100, ["tcp"])) == Ok([(22, "tcp")])
  {
    var probe := (protocol: string, target: string, port: int) => port == 22;
    var args := Args("host", [20, 21, 22], 100, ["tcp"]);
    var m := Matrix(probe, "host", [20, 21, 22], ["tcp"]);
    assert m[0][0] == probe("tcp", "host", 20) == false;
    assert m[1][0] == probe("tcp", "host", 21) == false;
    assert m[2][0] == probe("tcp", "host", 22) == true;
    assert m[0] == [false] && m[1] == [false] && m[2] == [true];
    assert m == [[false], [false], [true]];
    assert [20, 21, 22][..2] == [20, 21] && [20, 21][..1] == [20] && [20][..0] == [];
    assert m[..2] == [[false], [false]] && m[..2][..1] == [[false]] && m[..2][..1][..0] == [];
    assert [true][..0] == [] && [false][..0] == [];
    assert Row(22, ["tcp"], [true]) == [(22, "tcp")];
    assert Row(21, ["tcp"], [false]) == [];
    assert Row(20, ["tcp"], [false]) == [];
    assert OpenPairs([20], ["tcp"], [[false]]) == [];
    assert OpenPairs([20, 21], ["tcp"], [[false], [false]]) == [];
    assert OpenPairs([20, 21, 22], ["tcp"], [[false], [false], [true]]) == [(22, "tcp")];
    assert Sort([(22, "tcp")]) == Insert((22, "tcp"), []);
  }

  /** FINDING, as written: `--protocols TCP` passes the check of `get_args`
      but is stored as "TCP", which the registry lookup of `scan_port`
      does not know; every task raises KeyError, none adds to COUNT (see
      the second ensures of RunScan), and the result loop re-raises it.
      With no workers the pool's ValueError comes first. */
  lemma UpperCaseProtocolFails(probe: Probe, parsed: Parsed)
    requires parsed.protocols == ["TCP"] && parsed.start <= parsed.end
    ensures ShapedArgs(parsed).Ok?
    ensures ShapedArgs(parsed).value.protocols == ["TCP"]
    ensures !AllHandled(ShapedArgs(parsed).value.protocols)
    ensures parsed.threads > 0 ==> ScanOutcome(probe, ShapedArgs(parsed).value) == Err(KeyError("TCP"))
    ensures parsed.threads <= 0 ==> ScanOutcome(probe, ShapedArgs(parsed).value) == Err(ValueError(NoWorkers))
  {
    UpperCaseNameKept();
    var args := ShapedArgs(parsed).value;
    assert |args.ports| > 0;
    assert !AllHandled(args.protocols) by { assert args.protocols[0] !in HandledProtocols; }
    var e := ProbeAll(probe, args.target, args.ports[0], args.protocols);
    var i :| 0 <= i < |args.protocols| && FirstUnhandled(args.protocols, i) && e.error == KeyError(args.protocols[i]);
  }

  /** FINDING, corrected: with the names stored in lower case, every
      accepted configuration with at least one worker scans without an
      exception. Since every name is then a registry key, the second
      ensures of RunScan gives COUNT equal to the number of ports. */
  lemma LoweredScanSucceeds(probe: Probe, parsed: Parsed)
    requires LoweredArgs(parsed).Ok?
    ensures AllHandled(LoweredArgs(parsed).value.protocols)
    ensures parsed.threads > 0 <==> ScanOutcome(probe, LoweredArgs(parsed).value).Ok?
    ensures ShapedArgs(parsed).Ok?
  {
    LoweredProtocolsSupported(parsed.protocols);
  }
}
