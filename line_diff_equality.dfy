/** `test_rpc_equality` of the reth-tester execution extension, reported with
    the line-diff reporter. reth-tester/src/equality.rs sends the nine-probe
    transaction list, reth-tester/src/rpc/equality.rs the ten-probe one; the
    two files are otherwise the same driver, modelled once with the probe set
    as a parameter. */
module LineDiffEquality {
  import opened Values
  import opened TestOutcome
  import opened ProbeCatalog
  import opened BlockRunner
  import opened LineDiffReport

  /** What a run leaves behind: how it ended and what it printed. */
  datatype Session = Session(result: Run<()>, output: seq<string>)

  /** `test_per_block`: nothing is printed until every block is built and
      compared, so an abort prints no report at all. */
  function PerBlockSession<V(==)>(probeSet: TxProbeSet, p: Provider, e: Endpoints<V>, start: nat, end: nat,
                                  diff: (string, string) -> seq<Change>): Session
  {
    match BlockUnits(BlockTestsOf(probeSet, p), e, start, end)
    case Aborted(err) => Session(Aborted(err), [])
    case Done(us) => Session(Done(()), ReportText(us, diff))
  }

  /** `test_block_range`: one report with the single range unit. */
  function RangeText<V(==)>(e: Endpoints<V>, start: nat, end: nat, diff: (string, string) -> seq<Change>)
    : seq<string>
  {
    ReportText([RangeUnit(e, start, end)], diff)
  }

  /** `test_rpc_equality`: build the remote client (`clientBuild` is the
      builder's error, if any), run the per-block tests, then the range test. */
  function EqualitySession<V(==)>(probeSet: TxProbeSet, clientBuild: Option<string>, p: Provider, e: Endpoints<V>,
                                  start: nat, end: nat, diff: (string, string) -> seq<Change>): Session
  {
    if clientBuild.Some? then Session(Aborted(ClientFailed(clientBuild.value)), [])
    else
      var s := PerBlockSession(probeSet, p, e, start, end, diff);
      if s.result.Aborted? then s else Session(Done(()), s.output + RangeText(e, start, end, diff))
  }

  method TestPerBlock<V(==)>(probeSet: TxProbeSet, p: Provider, e: Endpoints<V>, start: nat, end: nat,
                             diff: (string, string) -> seq<Change>) returns (s: Session)
    ensures s == PerBlockSession(probeSet, p, e, start, end, diff)
  {
    var units := CollectBlockUnits(probeSet, p, e, start, end);
    if units.Aborted? {
      return Session(Aborted(units.error), []);
    }
    var out := Report(units.value, diff);
    s := Session(Done(()), out);
  }

  method TestBlockRange<V(==)>(e: Endpoints<V>, start: nat, end: nat, diff: (string, string) -> seq<Change>)
    returns (out: seq<string>)
    ensures out == RangeText(e, start, end, diff)
  {
    var results := RunProbes([RangeProbe(start, end)], e);
    out := Report([(RangeTitle(start, end), results)], diff);
  }

  method TestRpcEquality<V(==)>(probeSet: TxProbeSet, clientBuild: Option<string>, p: Provider, e: Endpoints<V>,
                                start: nat, end: nat, diff: (string, string) -> seq<Change>) returns (s: Session)
    ensures s == EqualitySession(probeSet, clientBuild, p, e, start, end, diff)
  {
    if clientBuild.Some? {
      return Session(Aborted(ClientFailed(clientBuild.value)), []);
    }
    s := TestPerBlock(probeSet, p, e, start, end, diff);
    if s.result.Aborted? {
      return;
    }
    var range := TestBlockRange(e, start, end, diff);
    s := Session(Done(()), s.output + range);
  }

  /** A run completes iff the remote client is built and every block of the
      range is complete in the local database; a run that does not complete
      prints nothing. Mismatching answers never stop a run. */
  lemma SessionDoneIff<V>(probeSet: TxProbeSet, clientBuild: Option<string>, p: Provider, e: Endpoints<V>,
                              start: nat, end: nat, diff: (string, string) -> seq<Change>)
    ensures var s := EqualitySession(probeSet, clientBuild, p, e, start, end, diff);
            && (s.result.Done? <==> clientBuild.None? && forall k :: start <= k <= end ==> BlockComplete(p, k))
            && (s.result.Aborted? ==> s.output == [])
  {
    var tests := BlockTestsOf(probeSet, p);
    BlockUnitsReference(tests, e, start, end);
    forall k | start <= k <= end
      ensures tests(k).Done? <==> BlockComplete(p, k)
    {
      BlockTestsDoneIff(probeSet, p, k);
    }
  }

  /** A completed run prints the per-block report, one unit per block in
      ascending order, followed by the range report. */
  lemma SessionOutput<V>(probeSet: TxProbeSet, p: Provider, e: Endpoints<V>,
                             start: nat, end: nat, diff: (string, string) -> seq<Change>)
    requires EqualitySession(probeSet, None, p, e, start, end, diff).result.Done?
    ensures AllBuilt(BlockTestsOf(probeSet, p), start, end)
    ensures EqualitySession(probeSet, None, p, e, start, end, diff).output
            == ReportText(ReferenceUnits(BlockTestsOf(probeSet, p), e, start, end), diff) + RangeText(e, start, end, diff)
  {
    BlockUnitsReference(BlockTestsOf(probeSet, p), e, start, end);
  }

  /** In a completed run (every block built, see `SessionDoneIff`), block `k`
      gets the pass line iff every one of its probes was answered successfully
      and identically by both nodes. */
  lemma BlockPassIff<V>(probeSet: TxProbeSet, p: Provider, e: Endpoints<V>,
                        start: nat, end: nat, diff: (string, string) -> seq<Change>, k: nat)
    requires AllBuilt(BlockTestsOf(probeSet, p), start, end)
    requires start <= k <= end
    ensures BlockTests(probeSet, p, k).Done?
    ensures var us := ReferenceUnits(BlockTestsOf(probeSet, p), e, start, end);
            var ps := BlockTests(probeSet, p, k).value;
            && us[k - start].0 == BlockTitle(k)
            && (UnitText(us[k - start], diff) == [PassLine(BlockTitle(k))] <==>
                  forall i :: 0 <= i < |ps| ==> Agree(ps[i], e))
  {
    var tests := BlockTestsOf(probeSet, p);
    var us := ReferenceUnits(tests, e, start, end);
    var ps := tests(k).value;
    assert us[k - start] == (BlockTitle(k), RunProbes(ps, e));
    UnitPassIff(us[k - start], diff);
    AllOkIff(ps, e);
  }
}
