/** The execution extension of the root binary: the same chain-advance loop
    without a status record. */
module RethMain {
  import opened Values
  import opened ChainAdvance

  datatype TipEnd =
    | StartFailed(message: string)
    | Returned(localTip: nat)
    | Failed(message: string, localTip: nat)
    | Advancing(localTip: nat)

  /** The extension's outcome with the status left out. */
  function Forget(l: Launch): TipEnd
  {
    match l
    case NotStarted(m) => StartFailed(m)
    case Started(Stopped(_, tip, _)) => Returned(tip)
    case Started(Errored(m, _, tip)) => Failed(m, tip)
    case Started(Running(_, tip, _)) => Advancing(tip)
  }

  const NO_STATUS := TesterStatus(false, 0, 0, 0)

  function ExexSpec(startup: CallResult<nat>, maxBlocks: nat, firstExplorer: CallResult<Option<nat>>,
                    polls: seq<Poll>): TipEnd
  {
    Forget(Launched(startup, maxBlocks, firstExplorer, polls, NO_STATUS))
  }

  method RunExex(startup: CallResult<nat>, maxBlocks: nat, firstExplorer: CallResult<Option<nat>>, polls: seq<Poll>)
    returns (r: TipEnd)
    ensures r == ExexSpec(startup, maxBlocks, firstExplorer, polls)
  {
    var e := Exex(startup, maxBlocks, firstExplorer, polls, NO_STATUS);
    r := Forget(e);
  }

  /** Dropping the status changes nothing the extension does: whatever record
      a run starts from, it ends the same way at the same tip. A failing
      start-up call ends it with that error; otherwise the tip stays between
      the initial height and `initial_height + max_blocks`, and the loop
      returns only at that limit. */
  lemma NoStatusSameTips(startup: CallResult<nat>, maxBlocks: nat, firstExplorer: CallResult<Option<nat>>,
                         polls: seq<Poll>, status: TesterStatus)
    ensures ExexSpec(startup, maxBlocks, firstExplorer, polls)
            == Forget(Launched(startup, maxBlocks, firstExplorer, polls, status))
    ensures var r := ExexSpec(startup, maxBlocks, firstExplorer, polls);
            && (r.StartFailed? <==> startup.Failure?)
            && (r.StartFailed? ==> r.message == startup.message)
            && (!r.StartFailed? ==>
                  && startup.value <= r.localTip <= startup.value + maxBlocks
                  && (r.Returned? ==> r.localTip == startup.value + maxBlocks))
  {
    if startup.Success? && firstExplorer.Success? {
      var h := startup.value;
      StatusIrrelevant(h + maxBlocks, polls, 0, h, OrZero(firstExplorer.value),
                       NO_STATUS.(initialHeight := h), status.(initialHeight := h));
    }
    LaunchFacts(startup, maxBlocks, firstExplorer, polls, NO_STATUS);
  }
}
