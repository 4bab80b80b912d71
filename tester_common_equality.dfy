/** The equality runner of the shared tester library: the `RpcTester`
    builder and `test_rpc_equality`, which sends the ten-probe catalog and
    reports through the inclusion reporter. The library's `TestError`
    (`Diff { local, remote }`, `LocalErr`, `RemoteErr`) is handed to a reporter
    written against `Diff { rpc1, rpc2 }`, `Rpc1Err`, `Rpc2Err`; the model maps
    the one onto the other field by field. */
module TesterCommonEquality {
  import opened Values
  import opened TestOutcome
  import opened ProbeCatalog
  import opened BlockRunner
  import IR = InclusionReport

  /** An HTTP client, identified by the endpoint it talks to. */
  datatype Client = Client(url: string)

  datatype RpcTester = RpcTester(rpc1: Client, rpc2: Client, truth: Client, useTracing: bool, useReth: bool)

  /** `RpcTester::new`: both namespaces on, the first node as source of truth. */
  function New(rpc1: Client, rpc2: Client): (t: RpcTester)
    ensures t.rpc1 == rpc1 && t.rpc2 == rpc2 && t.truth == rpc1
    ensures t.useTracing && t.useReth
  {
    RpcTester(rpc1, rpc2, rpc1, true, true)
  }

  /** `with_truth`: replaces the source of truth and nothing else. */
  function WithTruth(t: RpcTester, truth: Client): (u: RpcTester)
    ensures u.truth == truth
    ensures u.rpc1 == t.rpc1 && u.rpc2 == t.rpc2 && u.useTracing == t.useTracing && u.useReth == t.useReth
  {
    t.(truth := truth)
  }

  /** `without_tracing` as written: it stores `true` into `use_tracing`. */
  function WithoutTracing(t: RpcTester): (u: RpcTester)
    ensures u.useTracing
    ensures u.rpc1 == t.rpc1 && u.rpc2 == t.rpc2 && u.truth == t.truth && u.useReth == t.useReth
  {
    t.(useTracing := true)
  }

  /** `without_reth` as written: it stores `true` into `use_reth`. */
  function WithoutReth(t: RpcTester): (u: RpcTester)
    ensures u.useReth
    ensures u.rpc1 == t.rpc1 && u.rpc2 == t.rpc2 && u.truth == t.truth && u.useTracing == t.useTracing
  {
    t.(useReth := true)
  }

  /** On a fresh tester the two "disable" builders change nothing: tracing
      and the reth namespace stay enabled. */
  lemma DisablersAreNoOps(rpc1: Client, rpc2: Client)
    ensures WithoutTracing(New(rpc1, rpc2)) == New(rpc1, rpc2)
    ensures WithoutReth(New(rpc1, rpc2)) == New(rpc1, rpc2)
    ensures WithoutReth(WithoutTracing(New(rpc1, rpc2))).useTracing
  {
  }

  /** The builder the doc comment describes: tracing calls disabled. */
  function DisableTracing(t: RpcTester): (u: RpcTester)
    ensures !u.useTracing
    ensures u.rpc1 == t.rpc1 && u.rpc2 == t.rpc2 && u.truth == t.truth && u.useReth == t.useReth
  {
    t.(useTracing := false)
  }

  /** The builder the doc comment describes: the reth namespace disabled. */
  function DisableReth(t: RpcTester): (u: RpcTester)
    ensures !u.useReth
    ensures u.rpc1 == t.rpc1 && u.rpc2 == t.rpc2 && u.truth == t.truth && u.useTracing == t.useTracing
  {
    t.(useReth := false)
  }

  /** The corrected builders switch exactly their own flag off, in either
      order, and are idempotent. */
  lemma DisablersCommute(t: RpcTester)
    ensures DisableTracing(DisableReth(t)) == DisableReth(DisableTracing(t))
    ensures var u := DisableTracing(DisableReth(t)); !u.useTracing && !u.useReth
    ensures DisableTracing(DisableTracing(t)) == DisableTracing(t)
    ensures DisableReth(DisableReth(t)) == DisableReth(t)
  {
  }

  /** The library's outcome as the inclusion reporter reads it. */
  function ToReport(o: Outcome): (q: IR.Outcome<string>)
    ensures q.Ok? <==> o.Ok?
    ensures o.Err? && o.error.Diff? ==> q == IR.Err(IR.Diff(o.error.local, o.error.remote))
    ensures o.Err? && o.error.LocalErr? ==> q == IR.Err(IR.Rpc1Err(o.error.message))
    ensures o.Err? && o.error.RemoteErr? ==> q == IR.Err(IR.Rpc2Err(o.error.message))
  {
    match o
    case Ok => IR.Ok
    case Err(Diff(l, r)) => IR.Err(IR.Diff(l, r))
    case Err(LocalErr(m)) => IR.Err(IR.Rpc1Err(m))
    case Err(RemoteErr(m)) => IR.Err(IR.Rpc2Err(m))
  }

  function ToReportUnit(u: TestUnit): (v: IR.TestUnit<string>)
    ensures v.0 == u.0 && |v.1| == |u.1|
    ensures forall i :: 0 <= i < |u.1| ==> v.1[i] == (u.1[i].0, ToReport(u.1[i].1))
  {
    (u.0, seq(|u.1|, i requires 0 <= i < |u.1| => (u.1[i].0, ToReport(u.1[i].1))))
  }

  function ToReportUnits(us: seq<TestUnit>): (vs: seq<IR.TestUnit<string>>)
    ensures |vs| == |us| && forall i :: 0 <= i < |us| ==> vs[i] == ToReportUnit(us[i])
  {
    seq(|us|, i requires 0 <= i < |us| => ToReportUnit(us[i]))
  }

  datatype Session = Session(result: Run<()>, output: seq<string>)

  /** `test_per_block`: the report's verdict is dropped. */
  function PerBlockSession<V(==)>(p: Provider, e: Endpoints<V>, start: nat, end: nat, inc: IR.Inclusion<string>)
    : Session
  {
    match BlockUnits(BlockTestsOf(Ten, p), e, start, end)
    case Aborted(err) => Session(Aborted(err), [])
    case Done(us) => Session(Done(()), IR.ReportText(ToReportUnits(us), inc))
  }

  function RangeText<V(==)>(e: Endpoints<V>, start: nat, end: nat, inc: IR.Inclusion<string>): seq<string>
  {
    IR.ReportText([ToReportUnit(RangeUnit(e, start, end))], inc)
  }

  function EqualitySession<V(==)>(p: Provider, e: Endpoints<V>, start: nat, end: nat, inc: IR.Inclusion<string>)
    : Session
  {
    var s := PerBlockSession(p, e, start, end, inc);
    if s.result.Aborted? then s else Session(Done(()), s.output + RangeText(e, start, end, inc))
  }

  method ConvertUnits(us: seq<TestUnit>) returns (vs: seq<IR.TestUnit<string>>)
    ensures vs == ToReportUnits(us)
  {
    vs := [];
    for i := 0 to |us|
      invariant vs == ToReportUnits(us[..i])
    {
      vs := vs + [ToReportUnit(us[i])];
    }
    assert us[..|us|] == us;
  }

  method TestPerBlock<V(==)>(p: Provider, e: Endpoints<V>, start: nat, end: nat, inc: IR.Inclusion<string>)
    returns (s: Session)
    ensures s == PerBlockSession(p, e, start, end, inc)
  {
    var units := CollectBlockUnits(Ten, p, e, start, end);
    if units.Aborted? {
      return Session(Aborted(units.error), []);
    }
    var converted := ConvertUnits(units.value);
    var out, verdict := IR.Report(converted, inc);
    s := Session(Done(()), out);
  }

  method TestBlockRange<V(==)>(e: Endpoints<V>, start: nat, end: nat, inc: IR.Inclusion<string>)
    returns (out: seq<string>)
    ensures out == RangeText(e, start, end, inc)
  {
    var results := RunProbes([RangeProbe(start, end)], e);
    var verdict;
    out, verdict := IR.Report([ToReportUnit((RangeTitle(start, end), results))], inc);
  }

  method TestRpcEquality<V(==)>(p: Provider, e: Endpoints<V>, start: nat, end: nat, inc: IR.Inclusion<string>)
    returns (s: Session)
    ensures s == EqualitySession(p, e, start, end, inc)
  {
    s := TestPerBlock(p, e, start, end, inc);
    if s.result.Aborted? {
      return;
    }
    var range := TestBlockRange(e, start, end, inc);
    s := Session(Done(()), s.output + range);
  }

  /** A run completes iff every block of the range is complete in the local
      database, whatever the nodes answered and however the inclusion check
      judges their differences: the reporter's verdict never reaches the
      caller. An aborted run prints nothing. */
  lemma SessionDoneIff<V>(p: Provider, e: Endpoints<V>, start: nat, end: nat, inc: IR.Inclusion<string>)
    ensures var s := EqualitySession(p, e, start, end, inc);
            && (s.result.Done? <==> forall k :: start <= k <= end ==> BlockComplete(p, k))
            && (s.result.Aborted? ==> s.output == [])
  {
    var tests := BlockTestsOf(Ten, p);
    BlockUnitsReference(tests, e, start, end);
    forall k | start <= k <= end
      ensures tests(k).Done? <==> BlockComplete(p, k)
    {
      BlockTestsDoneIff(Ten, p, k);
    }
  }

  /** Probe `q` passes the inclusion reporter: the nodes agree, or both
      answered and the first node's JSON includes the second's. */
  predicate Tolerated<V(==)>(q: Probe, e: Endpoints<V>, inc: IR.Inclusion<string>)
  {
    || Agree(q, e)
    || (e.local(q).Success? && e.remote(q).Success? && inc.includes(e.serialize(e.local(q).value), e.serialize(e.remote(q).value)))
  }

  lemma ProbeFailsIff<V>(q: Probe, e: Endpoints<V>, inc: IR.Inclusion<string>)
    ensures IR.Fails(ToReport(ProbeResult(q, e).1), inc) <==> !Tolerated(q, e, inc)
  {
  }

  /** In a completed run, block `k`'s title is printed with the pass line iff
      every probe of the block (`BlockTestsOf(Ten, p)(k)`, that is
      `BlockTests(Ten, p, k)`) passes the inclusion check. */
  lemma BlockPassIff<V>(p: Provider, e: Endpoints<V>, start: nat, end: nat, inc: IR.Inclusion<string>, k: nat)
    requires AllBuilt(BlockTestsOf(Ten, p), start, end)
    requires start <= k <= end
    ensures BlockTestsOf(Ten, p)(k).Done?
    ensures var u := ToReportUnit(ReferenceUnits(BlockTestsOf(Ten, p), e, start, end)[k - start]);
            var ps := BlockTestsOf(Ten, p)(k).value;
            && u.0 == BlockTitle(k)
            && IR.TitleText(u, inc) == IR.EntriesStep(u.0, u.1, true, inc).0
                                       + (if forall i :: 0 <= i < |ps| ==> Tolerated(ps[i], e, inc)
                                          then [IR.PassLine(BlockTitle(k))] else [])
  {
    UnitPassAt(BlockTestsOf(Ten, p), e, start, end, inc, k);
  }

  /** `BlockPassIff` for any probe lists that can all be built. */
  lemma UnitPassAt<V>(tests: nat -> Run<seq<Probe>>, e: Endpoints<V>, start: nat, end: nat, inc: IR.Inclusion<string>,
                      k: nat)
    requires AllBuilt(tests, start, end)
    requires start <= k <= end
    ensures tests(k).Done?
    ensures var u := ToReportUnit(ReferenceUnits(tests, e, start, end)[k - start]);
            var ps := tests(k).value;
            && u.0 == BlockTitle(k)
            && IR.TitleText(u, inc) == IR.EntriesStep(u.0, u.1, true, inc).0
                                       + (if forall i :: 0 <= i < |ps| ==> Tolerated(ps[i], e, inc)
                                          then [IR.PassLine(BlockTitle(k))] else [])
  {
    var ps := tests(k).value;
    assert ReferenceUnits(tests, e, start, end)[k - start] == (BlockTitle(k), RunProbes(ps, e));
    TitlePassIff(BlockTitle(k), ps, e, inc);
  }

  /** A title over a probe list gets the pass line iff every probe passes the
      inclusion check. */
  lemma TitlePassIff<V>(title: string, ps: seq<Probe>, e: Endpoints<V>, inc: IR.Inclusion<string>)
    ensures var u := ToReportUnit((title, RunProbes(ps, e)));
            && u.0 == title
            && IR.TitleText(u, inc) == IR.EntriesStep(title, u.1, true, inc).0
                                       + (if forall i :: 0 <= i < |ps| ==> Tolerated(ps[i], e, inc)
                                          then [IR.PassLine(title)] else [])
  {
    var u := ToReportUnit((title, RunProbes(ps, e)));
    IR.PassLineIff(u, inc);
    forall i | 0 <= i < |ps|
      ensures IR.Fails(u.1[i].1, inc) <==> !Tolerated(ps[i], e, inc)
    {
      ProbeFailsIff(ps[i], e, inc);
    }
    assert IR.TitlePassed(u.1, inc) <==> forall i :: 0 <= i < |ps| ==> Tolerated(ps[i], e, inc);
  }

  /** A completed run prints the per-block report, one unit per block in
      ascending order, then the range report. */
  lemma SessionOutput<V>(p: Provider, e: Endpoints<V>, start: nat, end: nat, inc: IR.Inclusion<string>)
    requires AllBuilt(BlockTestsOf(Ten, p), start, end)
    ensures EqualitySession(p, e, start, end, inc).result.Done?
    ensures EqualitySession(p, e, start, end, inc).output
            == IR.ReportText(ToReportUnits(ReferenceUnits(BlockTestsOf(Ten, p), e, start, end)), inc)
               + RangeText(e, start, end, inc)
  {
    BlockUnitsReference(BlockTestsOf(Ten, p), e, start, end);
  }
}
