/** `wait_for_readiness` of the standalone RPC tester: wait until the first
    node reports that it is not syncing, then until its tip has caught up to
    within five blocks of the second node's, and pick the range of
    `num_blocks + 1` blocks ending at the second node's tip. The endless
    polling is modelled over finite sequences of answers; running out of
    answers means the tester is still waiting. */
module Readiness {
  import opened Values

  /** The arguments of the command line: the two node URLs are required, the
      rest have defaults. */
  datatype CliArgs = CliArgs(rpc1: string, rpc2: string, numBlocks: U64, useReth: bool, useTracing: bool,
                             useAllTxes: bool)

  const DEFAULT_NUM_BLOCKS: U64 := 32

  /** The arguments when only `--rpc1` and `--rpc2` are given: 32 blocks, no
      reth namespace, no tracing, only the first transaction of each block. */
  function DefaultArgs(rpc1: string, rpc2: string): (a: CliArgs)
    ensures a.rpc1 == rpc1 && a.rpc2 == rpc2
    ensures a.numBlocks == DEFAULT_NUM_BLOCKS
    ensures !a.useReth && !a.useTracing && !a.useAllTxes
  {
    CliArgs(rpc1, rpc2, DEFAULT_NUM_BLOCKS, false, false, false)
  }

  /** `eth_syncing`: `Info(..)` while syncing, `None(false)` once synced. */
  datatype SyncStatus = Syncing | NotSyncing

  /** One round of the tip loop: `eth_blockNumber` of either node, a U256. */
  type TipRound = (CallResult<nat>, CallResult<nat>)

  datatype ReadinessError =
    | RpcFailed(message: string)
    | NotU64(value: nat)
    | SubtractOverflow

  datatype Readiness = Ready(start: U64, end: U64) | Failed(error: ReadinessError) | StillWaiting

  /** The acceptance test of a round: the first node is at or beyond the
      second, or at most five blocks behind it. */
  predicate Accepts(tip1: U64, tip2: U64)
  {
    tip1 >= tip2 || (var behind: U64 := tip2 - tip1; behind <= 5)
  }

  /** The test is exactly "the first node is at most five blocks behind". */
  lemma AcceptsIff(tip1: U64, tip2: U64)
    ensures Accepts(tip1, tip2) <==> tip2 <= tip1 + 5
  {
  }

  datatype SyncEnd = Synced | SyncFailed(message: string) | SyncPending

  /** The sync loop over the answers `syncs[i..]`. */
  function SyncPhase(syncs: seq<CallResult<SyncStatus>>, i: nat): SyncEnd
    requires i <= |syncs|
    decreases |syncs| - i
  {
    if i == |syncs| then SyncPending
    else
      match syncs[i]
      case Failure(m) => SyncFailed(m)
      case Success(Syncing) => SyncPhase(syncs, i + 1)
      case Success(NotSyncing) => Synced
  }

  /** Both tips of a round were read and fit in a `u64`. */
  predicate RoundRead(round: TipRound)
  {
    && round.0.Success? && round.0.value < U64_BOUND
    && round.1.Success? && round.1.value < U64_BOUND
  }

  /** A round that was read and sends the tester back to sleep. */
  predicate RoundRejected(round: TipRound)
  {
    RoundRead(round) && !Accepts(round.0.value, round.1.value)
  }

  /** The tip loop over the rounds `tips[i..]`. */
  function TipPhase(tips: seq<TipRound>, i: nat, numBlocks: U64): Readiness
    requires i <= |tips|
    decreases |tips| - i
  {
    if i == |tips| then StillWaiting
    else
      var round := tips[i];
      match round.0
      case Failure(m) => Failed(RpcFailed(m))
      case Success(t1) =>
        if t1 >= U64_BOUND then Failed(NotU64(t1))
        else
          match round.1
          case Failure(m) => Failed(RpcFailed(m))
          case Success(t2) =>
            if t2 >= U64_BOUND then Failed(NotU64(t2))
            else if !Accepts(t1, t2) then TipPhase(tips, i + 1, numBlocks)
            else if numBlocks > t2 then Failed(SubtractOverflow)
            else Ready(t2 - numBlocks, t2)
  }

  function WaitForReadiness(syncs: seq<CallResult<SyncStatus>>, tips: seq<TipRound>, numBlocks: U64): Readiness
  {
    match SyncPhase(syncs, 0)
    case SyncFailed(m) => Failed(RpcFailed(m))
    case SyncPending => StillWaiting
    case Synced => TipPhase(tips, 0, numBlocks)
  }

  /** The two polling loops; the sleeps between polls are not modelled. */
  method Wait(syncs: seq<CallResult<SyncStatus>>, tips: seq<TipRound>, numBlocks: U64) returns (r: Readiness)
    ensures r == WaitForReadiness(syncs, tips, numBlocks)
  {
    var i := 0;
    while i < |syncs| && syncs[i] == Success(Syncing)
      invariant 0 <= i <= |syncs|
      invariant SyncPhase(syncs, 0) == SyncPhase(syncs, i)
    {
      i := i + 1;
    }
    if i == |syncs| {
      return StillWaiting;
    }
    if syncs[i].Failure? {
      return Failed(RpcFailed(syncs[i].message));
    }

    var j := 0;
    while j < |tips|
      invariant 0 <= j <= |tips|
      invariant TipPhase(tips, 0, numBlocks) == TipPhase(tips, j, numBlocks)
    {
      var answer1 := tips[j].0;
      if answer1.Failure? { return Failed(RpcFailed(answer1.message)); }
      if answer1.value >= U64_BOUND { return Failed(NotU64(answer1.value)); }
      var tip1: U64 := answer1.value;
      var answer2 := tips[j].1;
      if answer2.Failure? { return Failed(RpcFailed(answer2.message)); }
      if answer2.value >= U64_BOUND { return Failed(NotU64(answer2.value)); }
      var tip2: U64 := answer2.value;
      if tip1 >= tip2 || tip2 - tip1 <= 5 {
        if numBlocks > tip2 { return Failed(SubtractOverflow); }
        return Ready(tip2 - numBlocks, tip2);
      }
      j := j + 1;
    }
    r := StillWaiting;
  }

  /** The sync loop ends in `Synced` exactly at the first answer that is not
      `Syncing`, when that answer is `NotSyncing`. */
  lemma {:induction false} SyncedIff(syncs: seq<CallResult<SyncStatus>>, i: nat)
    requires i <= |syncs|
    ensures SyncPhase(syncs, i) == Synced <==>
              exists j :: i <= j < |syncs| && syncs[j] == Success(NotSyncing)
                          && forall k :: i <= k < j ==> syncs[k] == Success(Syncing)
    decreases |syncs| - i
  {
    if i < |syncs| {
      SyncedIff(syncs, i + 1);
      if syncs[i] == Success(Syncing) {
        if exists j :: i <= j < |syncs| && syncs[j] == Success(NotSyncing)
                       && forall k :: i <= k < j ==> syncs[k] == Success(Syncing) {
          var j :| i <= j < |syncs| && syncs[j] == Success(NotSyncing)
                   && forall k :: i <= k < j ==> syncs[k] == Success(Syncing);
          assert j != i;
        }
      } else if syncs[i] == Success(NotSyncing) {
        assert i <= i < |syncs| && syncs[i] == Success(NotSyncing);
      }
    }
  }

  /** A range comes from the first round that was not rejected: every earlier
      round was read and rejected, this one was read and accepted, and the
      range ends at the second node's tip and holds `numBlocks + 1` blocks. */
  lemma {:induction false} TipPhaseReady(tips: seq<TipRound>, i: nat, numBlocks: U64)
    requires i <= |tips| && TipPhase(tips, i, numBlocks).Ready?
    ensures exists j :: i <= j < |tips|
                        && RoundRead(tips[j]) && Accepts(tips[j].0.value, tips[j].1.value)
                        && TipPhase(tips, i, numBlocks).end == tips[j].1.value
                        && (forall k :: i <= k < j ==> RoundRejected(tips[k]))
    ensures TipPhase(tips, i, numBlocks).start + numBlocks == TipPhase(tips, i, numBlocks).end
    decreases |tips| - i
  {
    var round := tips[i];
    if RoundRejected(round) {
      TipPhaseReady(tips, i + 1, numBlocks);
      var j :| i + 1 <= j < |tips|
               && RoundRead(tips[j]) && Accepts(tips[j].0.value, tips[j].1.value)
               && TipPhase(tips, i + 1, numBlocks).end == tips[j].1.value
               && (forall k :: i + 1 <= k < j ==> RoundRejected(tips[k]));
      assert forall k :: i <= k < j ==> RoundRejected(tips[k]);
    } else {
      assert RoundRead(round) && Accepts(round.0.value, round.1.value);
    }
  }

  /** Conversely, rejected rounds followed by an accepted one give that
      round's range, provided the second tip is at least `numBlocks`. */
  lemma {:induction false} TipPhaseFromAccepted(tips: seq<TipRound>, i: nat, j: nat, numBlocks: U64)
    requires i <= j < |tips|
    requires forall k :: i <= k < j ==> RoundRejected(tips[k])
    requires RoundRead(tips[j]) && Accepts(tips[j].0.value, tips[j].1.value)
    ensures numBlocks <= tips[j].1.value ==>
              TipPhase(tips, i, numBlocks) == Ready(tips[j].1.value - numBlocks, tips[j].1.value)
    ensures numBlocks > tips[j].1.value ==> TipPhase(tips, i, numBlocks) == Failed(SubtractOverflow)
    decreases j - i
  {
    if i < j {
      assert RoundRejected(tips[i]);
      TipPhaseFromAccepted(tips, i + 1, j, numBlocks);
    }
  }

  /** The tester never produces a range while the first node is syncing: a
      range implies an answer `NotSyncing` preceded only by `Syncing` ones,
      and a read round of tips within five blocks of each other. */
  lemma ReadyOnlyWhenSynced(syncs: seq<CallResult<SyncStatus>>, tips: seq<TipRound>, numBlocks: U64)
    requires WaitForReadiness(syncs, tips, numBlocks).Ready?
    ensures exists j :: 0 <= j < |syncs| && syncs[j] == Success(NotSyncing)
                        && forall k :: 0 <= k < j ==> syncs[k] == Success(Syncing)
    ensures var r := WaitForReadiness(syncs, tips, numBlocks);
            && r.end - r.start == numBlocks
            && exists j :: 0 <= j < |tips| && RoundRead(tips[j]) && r.end == tips[j].1.value
                           && tips[j].1.value <= tips[j].0.value + 5
  {
    SyncedIff(syncs, 0);
    TipPhaseReady(tips, 0, numBlocks);
    var j :| 0 <= j < |tips|
             && RoundRead(tips[j]) && Accepts(tips[j].0.value, tips[j].1.value)
             && TipPhase(tips, 0, numBlocks).end == tips[j].1.value
             && (forall k :: 0 <= k < j ==> RoundRejected(tips[k]));
    AcceptsIff(tips[j].0.value, tips[j].1.value);
  }
}
