/** The shared library's execution extension: the chain-advance loop, then,
    once stopped and when a second node is given, the choice of the block
    range compared against it. The comparison itself is the equality model;
    the endless sleep afterwards is not modelled. */
module TesterCommonExex {
  import opened Values
  import opened ChainAdvance

  /** How the extension ends: a start-up call failed, the loop ended
      (with the range to compare when one was chosen), or choosing the range
      panicked: the node serves no HTTP client (`expect("should have rpc")`),
      or the persisted tip is below 2. */
  datatype ExexEnd =
    | StartFailed(message: string)
    | Finished(loopEnd: LoopEnd, testRange: Option<(nat, nat)>)
    | NoRpcClient(loopEnd: LoopEnd)
    | RangeUnderflow(loopEnd: LoopEnd)

  /** `(storage_tip - 2)..=local_tip`: the tested range reaches two blocks
      below the persisted tip. Below 2 the `u64` subtraction overflows, which
      is a panic in a build with overflow checks (`RangeUnderflow`). */
  function TestRange(storageTip: nat, localTip: nat): (r: Option<(nat, nat)>)
    ensures r.Some? <==> storageTip >= 2
    ensures r.Some? ==> r.value.0 + 2 == storageTip && r.value.1 == localTip
  {
    if storageTip < 2 then None else Some((storageTip - 2, localTip))
  }

  /** `hasRpcClient`: the node's RPC server serves HTTP. Rust evaluates the
      arguments of `test_rpc_equality` left to right, so the client's
      `expect` comes before the range's subtraction. */
  function ExexSpec(startup: CallResult<nat>, numBlocks: nat, againstRpc: bool, hasRpcClient: bool,
                    firstExplorer: CallResult<Option<nat>>, polls: seq<Poll>, status: TesterStatus): ExexEnd
  {
    match Launched(startup, numBlocks, firstExplorer, polls, status)
    case NotStarted(m) => StartFailed(m)
    case Started(e) =>
      if e.Stopped? && againstRpc then
        if !hasRpcClient then NoRpcClient(e)
        else
          match TestRange(e.storageTip, e.localTip)
          case None => RangeUnderflow(e)
          case Some(range) => Finished(e, Some(range))
      else Finished(e, None)
  }

  method RunExex(startup: CallResult<nat>, numBlocks: nat, againstRpc: bool, hasRpcClient: bool,
                 firstExplorer: CallResult<Option<nat>>, polls: seq<Poll>, status: TesterStatus) returns (r: ExexEnd)
    ensures r == ExexSpec(startup, numBlocks, againstRpc, hasRpcClient, firstExplorer, polls, status)
  {
    var l := Exex(startup, numBlocks, firstExplorer, polls, status);
    if l.NotStarted? {
      return StartFailed(l.message);
    }
    var e := l.loopEnd;
    if e.Stopped? && againstRpc {
      if !hasRpcClient {
        return NoRpcClient(e);
      }
      if e.storageTip < 2 {
        return RangeUnderflow(e);
      }
      return Finished(e, Some((e.storageTip - 2, e.localTip)));
    }
    r := Finished(e, None);
  }

  /** A failing start-up call ends the extension with its error. A range is
      chosen only after the loop stopped with a second node given; it ends at
      `initial_height + num_blocks` and starts two below the persisted tip.
      Once the loop stopped with a second node given, choosing it panics on a
      missing HTTP client, and otherwise iff the persisted tip is below 2. */
  lemma TestedRange(startup: CallResult<nat>, numBlocks: nat, againstRpc: bool, hasRpcClient: bool,
                    firstExplorer: CallResult<Option<nat>>, polls: seq<Poll>, status: TesterStatus)
    ensures var r := ExexSpec(startup, numBlocks, againstRpc, hasRpcClient, firstExplorer, polls, status);
            && (r.StartFailed? <==> startup.Failure?)
            && (r.StartFailed? ==> r.message == startup.message)
            && (r.NoRpcClient? || r.RangeUnderflow? ==> againstRpc && r.loopEnd.Stopped?)
            && (!r.StartFailed? && againstRpc && r.loopEnd.Stopped? ==>
                  && (r.NoRpcClient? <==> !hasRpcClient)
                  && (r.RangeUnderflow? <==> hasRpcClient && r.loopEnd.storageTip < 2))
            && (r.Finished? && r.testRange.Some? ==>
                  && againstRpc && hasRpcClient && r.loopEnd.Stopped?
                  && r.testRange.value.1 == startup.value + numBlocks
                  && r.testRange.value.0 + 2 == r.loopEnd.storageTip
                  && r.loopEnd.status.ready)
  {
    LaunchFacts(startup, numBlocks, firstExplorer, polls, status);
  }
}
