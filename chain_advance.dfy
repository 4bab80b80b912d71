/** The chain-advance loop of the execution extensions: the node's tip is
    moved forward one block at a time, never past the explorer's tip, until
    `num_blocks` blocks beyond the initial height have been imported. The
    loop runs on finite sequences of observations (one `Poll` per iteration);
    running out of observations leaves the loop still running. */
module ChainAdvance {
  import opened Values

  /** The record the `tester_status` endpoint serves. */
  datatype TesterStatus = TesterStatus(ready: bool, initialHeight: nat, tip: nat, inMemoryFirst: nat)

  /** What one iteration observes: the body-stage checkpoint, the result of
      importing the next block (only consulted when the loop advances), and
      the explorer's latest block number. */
  datatype Poll = Poll(storage: CallResult<Option<nat>>, advance: CallResult<()>, explorer: CallResult<Option<nat>>)

  /** How the loop left off: stopped at the target height, failed on an
      error propagated with `?`, or still running when the observations ran
      out. */
  datatype LoopEnd =
    | Stopped(status: TesterStatus, localTip: nat, storageTip: nat)
    | Errored(message: string, status: TesterStatus, localTip: nat)
    | Running(status: TesterStatus, localTip: nat, explorerTip: nat)

  /** The advance rule: one block forward iff the node is behind the explorer. */
  function Advance(localTip: nat, explorerTip: nat): (t: nat)
    ensures t == localTip + 1 <==> localTip < explorerTip
    ensures t == localTip <==> localTip >= explorerTip
    ensures localTip <= t && (t > localTip ==> t <= explorerTip)
  {
    if localTip < explorerTip then localTip + 1 else localTip
  }

  /** The status written at the top of every iteration. */
  function Published(status: TesterStatus, storageTip: nat, localTip: nat): (s: TesterStatus)
    ensures s.inMemoryFirst == storageTip + 1 && s.tip == localTip
    ensures s.ready == status.ready && s.initialHeight == status.initialHeight
  {
    status.(inMemoryFirst := storageTip + 1, tip := localTip)
  }

  /** The loop from iteration `i`, with `limit` = `initial_height + num_blocks`. */
  function Loop(limit: nat, polls: seq<Poll>, i: nat, localTip: nat, explorerTip: nat, status: TesterStatus): LoopEnd
    requires i <= |polls|
    decreases |polls| - i
  {
    if i == |polls| then Running(status, localTip, explorerTip)
    else
      match polls[i].storage
      case Failure(m) => Errored(m, status, localTip)
      case Success(checkpoint) =>
        var storageTip := OrZero(checkpoint);
        var published := Published(status, storageTip, localTip);
        if localTip >= limit then Stopped(published.(ready := true), localTip, storageTip)
        else
          var next := Advance(localTip, explorerTip);
          if next != localTip && polls[i].advance.Failure? then Errored(polls[i].advance.message, published, next)
          else
            match polls[i].explorer
            case Failure(m) => Errored(m, published, next)
            case Success(tip) => Loop(limit, polls, i + 1, next, OrZero(tip), published)
  }

  /** The extension's start: the tip begins at the initial height, which is
      recorded in the status, and the loop then runs. */
  function Start(initialHeight: nat, numBlocks: nat, firstExplorer: CallResult<Option<nat>>, polls: seq<Poll>,
                 status: TesterStatus): LoopEnd
  {
    match firstExplorer
    case Failure(m) => Errored(m, status, initialHeight)
    case Success(tip) =>
      Loop(initialHeight + numBlocks, polls, 0, initialHeight, OrZero(tip), status.(initialHeight := initialHeight))
  }

  /** The loop's state wherever it ends: the tip lies between the initial
      height and the limit, and `ready` is set iff the loop stopped; a stopped
      loop sits exactly at the limit with its status published. */
  predicate EndFacts(initialHeight: nat, limit: nat, ready0: bool, r: LoopEnd)
  {
    && initialHeight <= r.localTip <= limit
    && r.status.initialHeight == initialHeight
    && (r.Stopped? ==> r.status.ready && r.status.tip == r.localTip
                       && r.status.inMemoryFirst == r.storageTip + 1)
    && (!r.Stopped? ==> r.status.ready == ready0)
  }

  lemma {:induction false} LoopFacts(initialHeight: nat, limit: nat, polls: seq<Poll>, i: nat, localTip: nat,
                                     explorerTip: nat, status: TesterStatus)
    requires i <= |polls|
    requires initialHeight <= localTip <= limit && status.initialHeight == initialHeight
    ensures EndFacts(initialHeight, limit, status.ready, Loop(limit, polls, i, localTip, explorerTip, status))
    ensures Loop(limit, polls, i, localTip, explorerTip, status).Stopped? ==>
              Loop(limit, polls, i, localTip, explorerTip, status).localTip == limit
    decreases |polls| - i
  {
    if i < |polls| && polls[i].storage.Success? && localTip < limit {
      var published := Published(status, OrZero(polls[i].storage.value), localTip);
      var next := Advance(localTip, explorerTip);
      if polls[i].explorer.Success? {
        LoopFacts(initialHeight, limit, polls, i + 1, next, OrZero(polls[i].explorer.value), published);
      }
    }
  }

  /** Every run from the start: see `EndFacts`. */
  lemma StartFacts(initialHeight: nat, numBlocks: nat, firstExplorer: CallResult<Option<nat>>, polls: seq<Poll>,
                   status: TesterStatus)
    ensures var r := Start(initialHeight, numBlocks, firstExplorer, polls, status);
            && (firstExplorer.Success? ==> EndFacts(initialHeight, initialHeight + numBlocks, status.ready, r))
            && (r.Stopped? ==> r.localTip == initialHeight + numBlocks)
  {
    if firstExplorer.Success? {
      LoopFacts(initialHeight, initialHeight + numBlocks, polls, 0, initialHeight, OrZero(firstExplorer.value),
                status.(initialHeight := initialHeight));
    }
  }

  /** Control flow never reads the status: two runs from different status
      records end the same way at the same tip. */
  lemma {:induction false} StatusIrrelevant(limit: nat, polls: seq<Poll>, i: nat, localTip: nat, explorerTip: nat,
                                            s1: TesterStatus, s2: TesterStatus)
    requires i <= |polls|
    ensures var r1 := Loop(limit, polls, i, localTip, explorerTip, s1);
            var r2 := Loop(limit, polls, i, localTip, explorerTip, s2);
            && r1.Stopped? == r2.Stopped? && r1.Errored? == r2.Errored? && r1.Running? == r2.Running?
            && r1.localTip == r2.localTip
            && (r1.Stopped? ==> r1.storageTip == r2.storageTip)
            && (r1.Errored? ==> r1.message == r2.message)
            && (r1.Running? ==> r1.explorerTip == r2.explorerTip)
    decreases |polls| - i
  {
    if i < |polls| && polls[i].storage.Success? && localTip < limit && polls[i].explorer.Success? {
      var storageTip := OrZero(polls[i].storage.value);
      StatusIrrelevant(limit, polls, i + 1, Advance(localTip, explorerTip), OrZero(polls[i].explorer.value),
                       Published(s1, storageTip, localTip), Published(s2, storageTip, localTip));
    }
  }

  /** The loop of `exex`: each iteration reads the checkpoint, publishes the
      status, stops at the limit, otherwise advances one block when behind
      and re-reads the explorer's tip. */
  method RunLoop(limit: nat, polls: seq<Poll>, startTip: nat, startExplorer: nat, startStatus: TesterStatus)
    returns (r: LoopEnd)
    ensures r == Loop(limit, polls, 0, startTip, startExplorer, startStatus)
  {
    var localTip: nat := startTip;
    var explorerTip: nat := startExplorer;
    var status := startStatus;
    var i := 0;
    while i < |polls|
      invariant 0 <= i <= |polls|
      invariant Loop(limit, polls, 0, startTip, startExplorer, startStatus) == Loop(limit, polls, i, localTip, explorerTip, status)
    {
      var poll := polls[i];
      if poll.storage.Failure? {
        return Errored(poll.storage.message, status, localTip);
      }
      var storageTip := OrZero(poll.storage.value);
      status := status.(inMemoryFirst := storageTip + 1, tip := localTip);
      if localTip >= limit {
        status := status.(ready := true);
        return Stopped(status, localTip, storageTip);
      }
      if localTip < explorerTip {
        localTip := localTip + 1;
        if poll.advance.Failure? {
          return Errored(poll.advance.message, status, localTip);
        }
      }
      if poll.explorer.Failure? {
        return Errored(poll.explorer.message, status, localTip);
      }
      explorerTip := OrZero(poll.explorer.value);
      i := i + 1;
    }
    r := Running(status, localTip, explorerTip);
  }

  /** The extension's start-up calls (the auth server handle, the finalized
      block, the explorer client, `last_block_number()`), each propagated
      with `?`: `startup` is their combined result, and its value is the
      initial height. */
  datatype Launch = NotStarted(message: string) | Started(loopEnd: LoopEnd)

  /** The whole extension: the start-up, then the start of the loop. */
  function Launched(startup: CallResult<nat>, numBlocks: nat, firstExplorer: CallResult<Option<nat>>,
                    polls: seq<Poll>, status: TesterStatus): Launch
  {
    match startup
    case Failure(m) => NotStarted(m)
    case Success(initialHeight) => Started(Start(initialHeight, numBlocks, firstExplorer, polls, status))
  }

  /** A failing start-up call ends the extension before the loop, with its
      error; otherwise the loop's facts hold from the initial height it read. */
  lemma LaunchFacts(startup: CallResult<nat>, numBlocks: nat, firstExplorer: CallResult<Option<nat>>,
                    polls: seq<Poll>, status: TesterStatus)
    ensures var r := Launched(startup, numBlocks, firstExplorer, polls, status);
            && (r.NotStarted? <==> startup.Failure?)
            && (r.NotStarted? ==> r.message == startup.message)
            && (r.Started? && firstExplorer.Success? ==>
                  EndFacts(startup.value, startup.value + numBlocks, status.ready, r.loopEnd))
            && (r.Started? && r.loopEnd.Stopped? ==> r.loopEnd.localTip == startup.value + numBlocks)
  {
    if startup.Success? {
      StartFacts(startup.value, numBlocks, firstExplorer, polls, status);
    }
  }

  /** `exex`: the start-up calls, then the explorer's tip is read, the initial
      height recorded, and the loop run from the initial height. */
  method Exex(startup: CallResult<nat>, numBlocks: nat, firstExplorer: CallResult<Option<nat>>, polls: seq<Poll>,
              status: TesterStatus) returns (r: Launch)
    ensures r == Launched(startup, numBlocks, firstExplorer, polls, status)
  {
    if startup.Failure? {
      return NotStarted(startup.message);
    }
    var initialHeight := startup.value;
    if firstExplorer.Failure? {
      return Started(Errored(firstExplorer.message, status, initialHeight));
    }
    var explorerTip := OrZero(firstExplorer.value);
    var recorded := status.(initialHeight := initialHeight);
    var e := RunLoop(initialHeight + numBlocks, polls, initialHeight, explorerTip, recorded);
    r := Started(e);
  }
}
