/** The per-block and range drivers shared by the equality runners: every
    probe of a block is sent to both nodes and compared, and the outcomes are
    grouped into one titled unit per block, in ascending block order. */
module BlockRunner {
  import opened Values
  import opened TestOutcome
  import opened ProbeCatalog

  /** The two nodes: what each answers to a probe, and the pretty JSON
      rendering of a response. */
  datatype Endpoints<!V(==)> = Endpoints(local: Probe -> CallResult<V>, remote: Probe -> CallResult<V>,
                                         serialize: V -> string)

  /** `join_all` over the probes: one outcome per probe, in probe order, each
      named by its probe. */
  function RunProbes<V(==)>(ps: seq<Probe>, e: Endpoints<V>): (rs: seq<MethodResult>)
    ensures |rs| == |ps|
    ensures forall i :: 0 <= i < |ps| ==> rs[i] == TestMethod(ps[i].name, e.local(ps[i]), e.remote(ps[i]), e.serialize)
    ensures forall i :: 0 <= i < |ps| ==> rs[i].0 == ps[i].name
    ensures forall i :: 0 <= i < |ps| ==>
              (rs[i].1 == Ok <==> e.local(ps[i]).Success? && e.remote(ps[i]).Success?
                                  && e.local(ps[i]).value == e.remote(ps[i]).value)
  {
    var rs := seq(|ps|, i requires 0 <= i < |ps| => ProbeResult(ps[i], e));
    assert forall i :: 0 <= i < |ps| ==> rs[i] == ProbeResult(ps[i], e);
    rs
  }

  /** Both nodes answer probe `q` and the answers are compared. */
  function ProbeResult<V(==)>(q: Probe, e: Endpoints<V>): MethodResult
  {
    TestMethod(q.name, e.local(q), e.remote(q), e.serialize)
  }

  /** Both nodes answered probe `q` successfully with the same value. */
  predicate Agree<V(==)>(q: Probe, e: Endpoints<V>)
  {
    e.local(q).Success? && e.remote(q).Success? && e.local(q).value == e.remote(q).value
  }

  /** Every outcome of a probe list is `Ok` iff the nodes agree on every probe. */
  lemma AllOkIff<V>(ps: seq<Probe>, e: Endpoints<V>)
    ensures (forall i :: 0 <= i < |ps| ==> RunProbes(ps, e)[i].1 == Ok) <==> forall i :: 0 <= i < |ps| ==> Agree(ps[i], e)
  {
    var rs := RunProbes(ps, e);
    assert forall i :: 0 <= i < |ps| ==> (rs[i].1 == Ok <==> Agree(ps[i], e));
  }

  function BlockTitle(n: nat): string
  {
    "Block Number " + DecimalString(n)
  }

  /** Distinct blocks get distinct titles. */
  lemma BlockTitleInjective(a: nat, b: nat)
    ensures BlockTitle(a) == BlockTitle(b) <==> a == b
  {
    if BlockTitle(a) == BlockTitle(b) {
      assert DecimalString(a) == BlockTitle(a)[13..];
      assert DecimalString(b) == BlockTitle(b)[13..];
      DecimalStringInjective(a, b);
    }
  }

  /** The probe lists of every block, as `test_per_block` builds them from the
      local database. */
  function BlockTestsOf(probeSet: TxProbeSet, p: Provider): nat -> Run<seq<Probe>>
  {
    (n: nat) => BlockTests(probeSet, p, n)
  }

  /** The units of the blocks `lo..=hi`, or the first abort among them;
      `tests(n)` is the probe list of block `n`. */
  function BlockUnits<V(==)>(tests: nat -> Run<seq<Probe>>, e: Endpoints<V>, lo: nat, hi: nat)
    : Run<seq<TestUnit>>
    decreases hi + 1 - lo
  {
    if lo > hi then Done([])
    else
      match tests(lo)
      case Aborted(err) => Aborted(err)
      case Done(ps) => Prepend([(BlockTitle(lo), RunProbes(ps, e))], BlockUnits(tests, e, lo + 1, hi))
  }

  /** A completed run has one unit per block of the range, in ascending order,
      each titled by its block and holding that block's probe outcomes. */
  lemma {:induction false} BlockUnitsShape<V>(tests: nat -> Run<seq<Probe>>, e: Endpoints<V>, lo: nat, hi: nat)
    requires BlockUnits(tests, e, lo, hi).Done?
    ensures var us := BlockUnits(tests, e, lo, hi).value;
            && |us| == (if lo <= hi then hi - lo + 1 else 0)
            && forall k :: lo <= k <= hi ==>
                 && tests(k).Done?
                 && us[k - lo] == (BlockTitle(k), RunProbes(tests(k).value, e))
    decreases hi + 1 - lo
  {
    if lo <= hi {
      BlockUnitsShape(tests, e, lo + 1, hi);
      var us := BlockUnits(tests, e, lo, hi).value;
      var rest := BlockUnits(tests, e, lo + 1, hi).value;
      assert tests(lo).Done?;
      assert us == [(BlockTitle(lo), RunProbes(tests(lo).value, e))] + rest;
    }
  }

  /** The run aborts iff some block of the range cannot be built, and then with
      the error of the lowest such block. */
  lemma {:induction false} BlockUnitsAborted<V>(tests: nat -> Run<seq<Probe>>, e: Endpoints<V>, lo: nat, hi: nat)
    ensures BlockUnits(tests, e, lo, hi).Aborted? <==>
              exists k :: lo <= k <= hi && tests(k).Aborted?
    ensures forall k :: lo <= k <= hi && tests(k).Aborted?
                        && (forall j :: lo <= j < k ==> tests(j).Done?)
                        ==> BlockUnits(tests, e, lo, hi) == Aborted(tests(k).error)
    decreases hi + 1 - lo
  {
    if lo <= hi {
      BlockUnitsAborted(tests, e, lo + 1, hi);
      if tests(lo).Done? {
        forall k | lo <= k <= hi && tests(k).Aborted?
          ensures lo + 1 <= k
        {
        }
      }
    }
  }

  /** Every block of `lo..=hi` can be built. */
  predicate AllBuilt(tests: nat -> Run<seq<Probe>>, lo: nat, hi: nat)
  {
    forall k :: lo <= k <= hi ==> tests(k).Done?
  }

  /** The units a completed run reports, written directly: block `lo + i`
      titled and compared at position `i`. */
  function ReferenceUnits<V(==)>(tests: nat -> Run<seq<Probe>>, e: Endpoints<V>, lo: nat, hi: nat): (us: seq<TestUnit>)
    requires AllBuilt(tests, lo, hi)
    ensures |us| == (if lo <= hi then hi - lo + 1 else 0)
  {
    if lo > hi then []
    else seq(hi - lo + 1, i requires 0 <= i < hi - lo + 1 => (BlockTitle(lo + i), RunProbes(tests(lo + i).value, e)))
  }

  /** A run over blocks that can all be built completes with the reference
      units; otherwise it aborts. */
  lemma BlockUnitsReference<V>(tests: nat -> Run<seq<Probe>>, e: Endpoints<V>, lo: nat, hi: nat)
    ensures BlockUnits(tests, e, lo, hi).Done? <==> AllBuilt(tests, lo, hi)
    ensures AllBuilt(tests, lo, hi) ==> BlockUnits(tests, e, lo, hi).value == ReferenceUnits(tests, e, lo, hi)
  {
    BlockUnitsAborted(tests, e, lo, hi);
    if AllBuilt(tests, lo, hi) {
      BlockUnitsShape(tests, e, lo, hi);
      var us := BlockUnits(tests, e, lo, hi).value;
      var ref := ReferenceUnits(tests, e, lo, hi);
      forall i | 0 <= i < |us|
        ensures us[i] == ref[i]
      {
        assert us[lo + i - lo] == ref[i];
      }
    }
  }

  /** The blocks `lo..hi` in ascending order, titled, from the results map. */
  ghost function Ordered(results: map<nat, seq<MethodResult>>, lo: nat, hi: nat): (us: seq<TestUnit>)
    requires lo <= hi
    requires forall k :: lo <= k < hi ==> k in results
    ensures |us| == hi - lo
  {
    seq(hi - lo, i requires 0 <= i < hi - lo => (BlockTitle(lo + i), results[lo + i]))
  }

  lemma OrderedExtend(results: map<nat, seq<MethodResult>>, lo: nat, n: nat, outcomes: seq<MethodResult>,
                      updated: map<nat, seq<MethodResult>>)
    requires lo <= n && updated == results[n := outcomes]
    requires forall k :: k in results <==> lo <= k < n
    ensures forall k :: k in updated <==> lo <= k < n + 1
    ensures Ordered(updated, lo, n + 1) == Ordered(results, lo, n) + [(BlockTitle(n), outcomes)]
  {
  }

  lemma BlockUnitsStep<V>(tests: nat -> Run<seq<Probe>>, e: Endpoints<V>, n: nat, end: nat)
    requires n <= end && tests(n).Done?
    ensures BlockUnits(tests, e, n, end)
            == Prepend([(BlockTitle(n), RunProbes(tests(n).value, e))], BlockUnits(tests, e, n + 1, end))
  {
  }

  lemma BlockUnitsAbortAt<V>(tests: nat -> Run<seq<Probe>>, e: Endpoints<V>, n: nat, end: nat)
    requires n <= end && tests(n).Aborted?
    ensures BlockUnits(tests, e, n, end) == Aborted(tests(n).error)
  {
  }

  /** One round of `CollectBlockUnits`: storing block `n`'s outcomes keeps the
      run equal to the stored units followed by the rest of the range. */
  lemma CollectStep<V>(tests: nat -> Run<seq<Probe>>, e: Endpoints<V>, start: nat, end: nat, n: nat,
                       results: map<nat, seq<MethodResult>>, outcomes: seq<MethodResult>,
                       updated: map<nat, seq<MethodResult>>)
    requires start <= n <= end && tests(n).Done? && outcomes == RunProbes(tests(n).value, e)
    requires updated == results[n := outcomes]
    requires forall k :: k in results <==> start <= k < n
    requires BlockUnits(tests, e, start, end) == Prepend(Ordered(results, start, n), BlockUnits(tests, e, n, end))
    ensures forall k :: k in updated <==> start <= k < n + 1
    ensures BlockUnits(tests, e, start, end) == Prepend(Ordered(updated, start, n + 1), BlockUnits(tests, e, n + 1, end))
  {
    var before := Ordered(results, start, n);
    OrderedExtend(results, start, n, outcomes, updated);
    BlockUnitsStep(tests, e, n, end);
    PrependTwice(before, [(BlockTitle(n), outcomes)], BlockUnits(tests, e, n + 1, end));
  }

  /** Before the first round nothing is stored and the whole range is ahead. */
  lemma CollectInit<V>(tests: nat -> Run<seq<Probe>>, e: Endpoints<V>, start: nat, end: nat,
                       results: map<nat, seq<MethodResult>>)
    requires results == map[]
    ensures forall k :: k in results <==> start <= k < start
    ensures BlockUnits(tests, e, start, end) == Prepend(Ordered(results, start, start), BlockUnits(tests, e, start, end))
  {
    assert Ordered(results, start, start) == [];
    PrependEmpty(BlockUnits(tests, e, start, end));
  }

  /** After the last round the stored units are the whole run. */
  lemma CollectDone<V>(tests: nat -> Run<seq<Probe>>, e: Endpoints<V>, start: nat, end: nat, n: nat,
                       results: map<nat, seq<MethodResult>>)
    requires start <= n && end < n
    requires forall k :: k in results <==> start <= k < n
    requires BlockUnits(tests, e, start, end) == Prepend(Ordered(results, start, n), BlockUnits(tests, e, n, end))
    ensures BlockUnits(tests, e, start, end) == Done(Ordered(results, start, n))
  {
    assert Ordered(results, start, n) + [] == Ordered(results, start, n);
  }

  /** Builds and compares the blocks `start..=end` one after the other; the
      outcomes are kept in a map keyed by block number and reported by
      ascending key. */
  method CollectBlockUnits<V(==)>(probeSet: TxProbeSet, p: Provider, e: Endpoints<V>, start: nat, end: nat)
    returns (r: Run<seq<TestUnit>>)
    ensures r == BlockUnits(BlockTestsOf(probeSet, p), e, start, end)
  {
    var tests := BlockTestsOf(probeSet, p);
    var results: map<nat, seq<MethodResult>> := map[];
    var n := start;
    CollectInit(tests, e, start, end, results);
    while n <= end
      invariant start <= n && (n <= end + 1 || n == start)
      invariant forall k :: k in results <==> start <= k < n
      invariant BlockUnits(tests, e, start, end) == Prepend(Ordered(results, start, n), BlockUnits(tests, e, n, end))
      decreases end + 1 - n
    {
      var built := BuildBlockTests(probeSet, p, n);
      assert built == tests(n);
      if built.Aborted? {
        BlockUnitsAbortAt(tests, e, n, end);
        return Aborted(built.error);
      }
      var outcomes := RunProbes(built.value, e);
      CollectStep(tests, e, start, end, n, results, outcomes, results[n := outcomes]);
      results := results[n := outcomes];
      n := n + 1;
    }
    var units := InKeyOrder(results, start, n);
    CollectDone(tests, e, start, end, n, results);
    r := Done(units);
  }

  /** `results.into_iter()` over the keys `lo..hi`, each titled. */
  method InKeyOrder(results: map<nat, seq<MethodResult>>, lo: nat, hi: nat) returns (units: seq<TestUnit>)
    requires lo <= hi
    requires forall k :: lo <= k < hi ==> k in results
    ensures units == Ordered(results, lo, hi)
  {
    units := [];
    var k := lo;
    while k < hi
      invariant lo <= k <= hi
      invariant units == Ordered(results, lo, k)
    {
      units := units + [(BlockTitle(k), results[k])];
      k := k + 1;
    }
  }

  /** `Filter::new().from_block(start).to_block(end)`. */
  function RangeProbe(start: nat, end: nat): (q: Probe)
    ensures q.name == "logs" && q.args == [FilterArg(Filter(start, end, None, None))]
  {
    Probe("logs", [FilterArg(Filter(start, end, None, None))])
  }

  function RangeTitle(start: nat, end: nat): string
  {
    DecimalString(start) + "..=" + DecimalString(end)
  }

  /** The single unit of `test_block_range`: one `logs` call over the whole
      range, titled `start..=end`. */
  function RangeUnit<V(==)>(e: Endpoints<V>, start: nat, end: nat): (u: TestUnit)
    ensures u.0 == RangeTitle(start, end)
    ensures |u.1| == 1 && u.1[0] == TestMethod("logs", e.local(RangeProbe(start, end)),
                                                e.remote(RangeProbe(start, end)), e.serialize)
  {
    (RangeTitle(start, end), RunProbes([RangeProbe(start, end)], e))
  }
}
