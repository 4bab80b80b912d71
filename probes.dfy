/** The probe catalog and the block unit builder shared by the three
    equality runners: from one block of the local node's database, the
    ordered list of named calls, each with its arguments. The raw call and
    the decoded response are not modelled; a probe is the method name and
    the argument values it is called with. */
module ProbeCatalog {
  import opened Values

  /** A 32-byte hash; only compared for identity. */
  type Hash = nat
  /** A 20-byte account address; only compared for identity. */
  type Address = nat

  datatype Log = Log(address: Address, topics: seq<Hash>)
  datatype Receipt = Receipt(logs: seq<Log>)

  /** A transaction of a block body; `signer` is `None` when the sender cannot
      be recovered from the signature. */
  datatype Tx = Tx(hash: Hash, signer: Option<Address>)

  /** A block as read from the database; `hash` is what `hash_slow` computes. */
  datatype Block = Block(number: nat, hash: Hash, body: seq<Tx>)

  /** A provider lookup: `Ok(Some(x))`, `Ok(None)` or a database error. */
  datatype Fetch<T> = Found(item: T) | Absent | ProviderError(message: string)

  /** The local node's database, as the runner reads it: a block by number,
      the number of the block's first transaction (`block_body_indices`) and a
      receipt by global transaction number. */
  datatype Provider = Provider(
    block: nat -> Fetch<Block>,
    firstTxNum: nat -> Fetch<nat>,
    receipt: nat -> Fetch<Receipt>)

  /** Why a run stops: an error returned with `?`, or a panic of `expect` or
      `assert_eq!`. Either ends the whole run. */
  datatype RunError = ClientFailed(message: string) | ProviderFailed(message: string) | Panicked(message: string)

  datatype Run<T> = Done(value: T) | Aborted(error: RunError)

  /** A log filter over the blocks `fromBlock..=toBlock`, optionally narrowed to
      an emitting address and to a first topic (`event_signature`). */
  datatype Filter = Filter(fromBlock: nat, toBlock: nat, address: Option<Address>, topic: Option<Hash>)

  /** The argument values a probe is called with: a block or transaction hash,
      `BlockNumberOrTag::Number`, `BlockId::Number`, the `full` flag,
      a transaction index, an address, a filter, the call-tracer options. */
  datatype Arg =
    | HashArg(hash: Hash)
    | NumberArg(number: nat)
    | IdArg(id: nat)
    | FullArg(full: bool)
    | IndexArg(index: nat)
    | AddressArg(address: Address)
    | FilterArg(filter: Filter)
    | CallTracerArg

  /** One call of the catalog: the method identifier and its arguments. */
  datatype Probe = Probe(name: string, args: seq<Arg>)

  /** The per-transaction list: nine probes in reth-tester/src/equality.rs,
      ten (adding `debug_trace_transaction`) in the two other runners. */
  datatype TxProbeSet = Nine | Ten

  function FixedCount(probeSet: TxProbeSet): nat
  {
    match probeSet
    case Nine => 9
    case Ten => 10
  }

  const BLOCK_PROBE_NAMES: seq<string> := [
    "block_by_hash", "block_by_number",
    "block_transaction_count_by_hash", "block_transaction_count_by_number",
    "block_uncles_count_by_hash", "block_uncles_count_by_number",
    "block_receipts", "header_by_number", "header_by_hash",
    "reth_get_balance_changes_in_block", "trace_block", "logs"]

  const TX_PROBE_NAMES: seq<string> := [
    "raw_transaction_by_hash", "transaction_by_hash",
    "raw_transaction_by_block_hash_and_index", "transaction_by_block_hash_and_index",
    "raw_transaction_by_block_number_and_index", "transaction_by_block_number_and_index",
    "transaction_receipt", "transaction_count", "balance", "debug_trace_transaction"]

  function Names(ps: seq<Probe>): (names: seq<string>)
    ensures |names| == |ps| && forall i :: 0 <= i < |ps| ==> names[i] == ps[i].name
  {
    seq(|ps|, i requires 0 <= i < |ps| => ps[i].name)
  }

  /** `Filter::new().select(n)`: the single block `n`. */
  function BlockFilter(n: nat): Filter
  {
    Filter(n, n, None, None)
  }

  /** The twelve block-level probes, in catalog order. */
  function BlockProbes(n: nat, blockHash: Hash): (ps: seq<Probe>)
    ensures Names(ps) == BLOCK_PROBE_NAMES
    ensures ps[0].args == [HashArg(blockHash), FullArg(true)] && ps[1].args == [NumberArg(n), FullArg(true)]
    ensures ps[2].args == ps[4].args == ps[8].args == [HashArg(blockHash)]
    ensures ps[3].args == ps[5].args == ps[7].args == [NumberArg(n)]
    ensures ps[6].args == ps[9].args == ps[10].args == [IdArg(n)]
    ensures ps[11].args == [FilterArg(BlockFilter(n))]
  {
    [ Probe("block_by_hash", [HashArg(blockHash), FullArg(true)]),
      Probe("block_by_number", [NumberArg(n), FullArg(true)]),
      Probe("block_transaction_count_by_hash", [HashArg(blockHash)]),
      Probe("block_transaction_count_by_number", [NumberArg(n)]),
      Probe("block_uncles_count_by_hash", [HashArg(blockHash)]),
      Probe("block_uncles_count_by_number", [NumberArg(n)]),
      Probe("block_receipts", [IdArg(n)]),
      Probe("header_by_number", [NumberArg(n)]),
      Probe("header_by_hash", [HashArg(blockHash)]),
      Probe("reth_get_balance_changes_in_block", [IdArg(n)]),
      Probe("trace_block", [IdArg(n)]),
      Probe("logs", [FilterArg(BlockFilter(n))]) ]
  }

  predicate HasLogs(rc: Receipt) { |rc.logs| > 0 }

  /** The last log of the receipt exists and has at least one topic. */
  predicate HasLastTopic(rc: Receipt) { |rc.logs| > 0 && |rc.logs[|rc.logs| - 1].topics| > 0 }

  function LogProbeCount(rc: Receipt): nat
  {
    (if HasLogs(rc) then 1 else 0) + (if HasLastTopic(rc) then 1 else 0)
  }

  /** The optional `logs` probes of a transaction: one filtered by the first
      log's address when the receipt has a log, one filtered by the first
      topic of the last log when that log has a topic. */
  function LogProbes(n: nat, rc: Receipt): (ps: seq<Probe>)
    ensures |ps| == LogProbeCount(rc)
    ensures forall i :: 0 <= i < |ps| ==> ps[i].name == "logs"
    ensures HasLogs(rc) ==> ps[0].args == [FilterArg(Filter(n, n, Some(rc.logs[0].address), None))]
    ensures HasLastTopic(rc) ==>
              ps[|ps| - 1].args == [FilterArg(Filter(n, n, None, Some(rc.logs[|rc.logs| - 1].topics[0])))]
  {
    (if HasLogs(rc) then [Probe("logs", [FilterArg(Filter(n, n, Some(rc.logs[0].address), None))])] else [])
    + (if HasLastTopic(rc)
       then [Probe("logs", [FilterArg(Filter(n, n, None, Some(rc.logs[|rc.logs| - 1].topics[0])))])]
       else [])
  }

  /** The fixed per-transaction probes; transaction `index` of the block is
      looked up by that index in both its hash- and number-addressed forms. */
  function FixedTxProbes(probeSet: TxProbeSet, n: nat, blockHash: Hash, index: nat, txHash: Hash, signer: Address)
    : (ps: seq<Probe>)
    ensures Names(ps) == TX_PROBE_NAMES[..FixedCount(probeSet)]
    ensures ps[0].args == ps[1].args == ps[6].args == [HashArg(txHash)]
    ensures ps[2].args == ps[3].args == [HashArg(blockHash), IndexArg(index)]
    ensures ps[4].args == ps[5].args == [NumberArg(n), IndexArg(index)]
    ensures ps[7].args == [AddressArg(signer), IdArg(n)] && ps[8].args == [AddressArg(signer), IdArg(n)]
    ensures probeSet == Ten ==> ps[9].args == [HashArg(txHash), CallTracerArg]
  {
    [ Probe("raw_transaction_by_hash", [HashArg(txHash)]),
      Probe("transaction_by_hash", [HashArg(txHash)]),
      Probe("raw_transaction_by_block_hash_and_index", [HashArg(blockHash), IndexArg(index)]),
      Probe("transaction_by_block_hash_and_index", [HashArg(blockHash), IndexArg(index)]),
      Probe("raw_transaction_by_block_number_and_index", [NumberArg(n), IndexArg(index)]),
      Probe("transaction_by_block_number_and_index", [NumberArg(n), IndexArg(index)]),
      Probe("transaction_receipt", [HashArg(txHash)]),
      Probe("transaction_count", [AddressArg(signer), IdArg(n)]),
      Probe("balance", [AddressArg(signer), IdArg(n)]) ]
    + (match probeSet
       case Nine => []
       case Ten => [Probe("debug_trace_transaction", [HashArg(txHash), CallTracerArg])])
  }

  function Prepend<T>(prefix: seq<T>, r: Run<seq<T>>): (q: Run<seq<T>>)
    ensures q.Aborted? <==> r.Aborted?
    ensures r.Aborted? ==> q.error == r.error
    ensures r.Done? ==> q.value == prefix + r.value
  {
    match r
    case Done(v) => Done(prefix + v)
    case Aborted(e) => Aborted(e)
  }

  lemma PrependTwice<T>(a: seq<T>, b: seq<T>, r: Run<seq<T>>)
    ensures Prepend(a, Prepend(b, r)) == Prepend(a + b, r)
  {
    if r.Done? {
      assert a + (b + r.value) == (a + b) + r.value;
    }
  }

  lemma PrependEmpty<T>(r: Run<seq<T>>)
    ensures Prepend([], r) == r
  {
    if r.Done? {
      assert [] + r.value == r.value;
    }
  }

  /** The probes of transaction `index`: its receipt is the one numbered
      `first + index`; a missing receipt or an unrecoverable signer aborts. */
  function TxProbes(probeSet: TxProbeSet, p: Provider, n: nat, blockHash: Hash, first: nat, index: nat, tx: Tx)
    : Run<seq<Probe>>
  {
    match p.receipt(first + index)
    case ProviderError(m) => Aborted(ProviderFailed(m))
    case Absent => Aborted(Panicked("should have receipt"))
    case Found(rc) =>
      match tx.signer
      case None => Aborted(Panicked("should recover sender"))
      case Some(signer) => Done(LogProbes(n, rc) + FixedTxProbes(probeSet, n, blockHash, index, tx.hash, signer))
  }

  /** The probes of the transactions `body[i..]`, in body order. */
  function TxsProbes(probeSet: TxProbeSet, p: Provider, n: nat, blockHash: Hash, first: nat, body: seq<Tx>, i: nat)
    : Run<seq<Probe>>
    requires i <= |body|
    decreases |body| - i
  {
    if i == |body| then Done([])
    else
      match TxProbes(probeSet, p, n, blockHash, first, i, body[i])
      case Aborted(e) => Aborted(e)
      case Done(ps) => Prepend(ps, TxsProbes(probeSet, p, n, blockHash, first, body, i + 1))
  }

  /** Every probe of block `n`: the block-level ones, then each transaction's.
      The block, its body indices and every receipt must exist, and the block
      read must carry the number asked for. */
  function BlockTests(probeSet: TxProbeSet, p: Provider, n: nat): Run<seq<Probe>>
  {
    match p.block(n)
    case ProviderError(m) => Aborted(ProviderFailed(m))
    case Absent => Aborted(Panicked("block should exist"))
    case Found(b) =>
      if b.number != n then Aborted(Panicked("assertion `left == right` failed"))
      else
        match p.firstTxNum(n)
        case ProviderError(m) => Aborted(ProviderFailed(m))
        case Absent => Aborted(Panicked("should have body indices"))
        case Found(first) => Prepend(BlockProbes(n, b.hash), TxsProbes(probeSet, p, n, b.hash, first, b.body, 0))
  }

  /** Transaction `j` has its receipt and a recoverable signer. */
  predicate TxReady(p: Provider, first: nat, body: seq<Tx>, j: nat)
    requires j < |body|
  {
    p.receipt(first + j).Found? && body[j].signer.Some?
  }

  /** Every transaction from `i` on has its receipt and a recoverable signer. */
  predicate TxsComplete(p: Provider, first: nat, body: seq<Tx>, i: nat)
    requires i <= |body|
  {
    forall j :: i <= j < |body| ==> TxReady(p, first, body, j)
  }

  lemma TxsCompleteStep(p: Provider, first: nat, body: seq<Tx>, i: nat)
    requires i < |body|
    ensures TxsComplete(p, first, body, i) <==>
              p.receipt(first + i).Found? && body[i].signer.Some? && TxsComplete(p, first, body, i + 1)
  {
    assert TxReady(p, first, body, i) <==> p.receipt(first + i).Found? && body[i].signer.Some?;
  }

  lemma {:induction false} TxsProbesDoneIff(probeSet: TxProbeSet, p: Provider, n: nat, blockHash: Hash, first: nat,
                                            body: seq<Tx>, i: nat)
    requires i <= |body|
    ensures TxsProbes(probeSet, p, n, blockHash, first, body, i).Done? <==> TxsComplete(p, first, body, i)
    decreases |body| - i
  {
    if i < |body| {
      TxsProbesDoneIff(probeSet, p, n, blockHash, first, body, i + 1);
      TxsCompleteStep(p, first, body, i);
    }
  }

  /** A block's probe list is built iff the block exists with the number asked
      for, its body indices exist, and so does every receipt and signer;
      anything missing aborts the run. */
  predicate BlockComplete(p: Provider, n: nat)
  {
    && p.block(n).Found? && p.block(n).item.number == n
    && p.firstTxNum(n).Found?
    && TxsComplete(p, p.firstTxNum(n).item, p.block(n).item.body, 0)
  }

  lemma BlockTestsDoneIff(probeSet: TxProbeSet, p: Provider, n: nat)
    ensures BlockTests(probeSet, p, n).Done? <==> BlockComplete(p, n)
  {
    if p.block(n).Found? && p.firstTxNum(n).Found? {
      var b := p.block(n).item;
      TxsProbesDoneIff(probeSet, p, n, b.hash, p.firstTxNum(n).item, b.body, 0);
    }
  }

  /** The number of probes the transactions `body[i..]` contribute. */
  function TxsCount(probeSet: TxProbeSet, p: Provider, first: nat, body: seq<Tx>, i: nat): nat
    requires i <= |body|
    decreases |body| - i
  {
    if i == |body| then 0
    else
      (match p.receipt(first + i) case Found(rc) => LogProbeCount(rc) case _ => 0)
      + FixedCount(probeSet) + TxsCount(probeSet, p, first, body, i + 1)
  }

  lemma {:induction false} TxsProbesCount(probeSet: TxProbeSet, p: Provider, n: nat, blockHash: Hash, first: nat,
                                          body: seq<Tx>, i: nat)
    requires i <= |body| && TxsProbes(probeSet, p, n, blockHash, first, body, i).Done?
    ensures |TxsProbes(probeSet, p, n, blockHash, first, body, i).value| == TxsCount(probeSet, p, first, body, i)
    decreases |body| - i
  {
    if i < |body| {
      TxsProbesCount(probeSet, p, n, blockHash, first, body, i + 1);
    }
  }

  /** A built block starts with its twelve block-level probes in catalog order,
      and holds exactly twelve plus, per transaction, its fixed probes and its
      optional `logs` probes; a block without transactions has just twelve. */
  lemma BlockTestsShape(probeSet: TxProbeSet, p: Provider, n: nat)
    requires BlockTests(probeSet, p, n).Done?
    ensures var ps := BlockTests(probeSet, p, n).value;
            var b := p.block(n).item;
            && |ps| == 12 + TxsCount(probeSet, p, p.firstTxNum(n).item, b.body, 0)
            && ps[..12] == BlockProbes(n, b.hash)
            && Names(ps[..12]) == BLOCK_PROBE_NAMES
            && (b.body == [] ==> ps == BlockProbes(n, b.hash))
  {
    var b := p.block(n).item;
    TxsProbesCount(probeSet, p, n, b.hash, p.firstTxNum(n).item, b.body, 0);
  }

  /** The probes of transaction `i` sit after those of the earlier ones: first
      its optional `logs` probes from receipt `first + i`, then its fixed ones. */
  lemma TxProbesSegment(probeSet: TxProbeSet, p: Provider, n: nat, blockHash: Hash, first: nat, body: seq<Tx>, i: nat)
    requires i < |body| && TxsProbes(probeSet, p, n, blockHash, first, body, i).Done?
    ensures p.receipt(first + i).Found? && body[i].signer.Some?
    ensures TxsProbes(probeSet, p, n, blockHash, first, body, i).value
            == LogProbes(n, p.receipt(first + i).item)
               + FixedTxProbes(probeSet, n, blockHash, i, body[i].hash, body[i].signer.value)
               + TxsProbes(probeSet, p, n, blockHash, first, body, i + 1).value
  {
  }

  /** The loop body of `test_per_block` for transaction `index`: reads its
      receipt, recovers its signer and lists its probes. */
  method BuildTxTests(probeSet: TxProbeSet, p: Provider, n: nat, blockHash: Hash, first: nat, index: nat, tx: Tx)
    returns (r: Run<seq<Probe>>)
    ensures r == TxProbes(probeSet, p, n, blockHash, first, index, tx)
  {
    var receipt := p.receipt(first + index);
    if receipt.ProviderError? { return Aborted(ProviderFailed(receipt.message)); }
    if receipt.Absent? { return Aborted(Panicked("should have receipt")); }
    var logs := receipt.item.logs;
    if tx.signer.None? { return Aborted(Panicked("should recover sender")); }
    var signer := tx.signer.value;

    var tests: seq<Probe> := [];
    if |logs| > 0 {
      tests := tests + [Probe("logs", [FilterArg(Filter(n, n, Some(logs[0].address), None))])];
    }
    if |logs| > 0 && |logs[|logs| - 1].topics| > 0 {
      tests := tests + [Probe("logs", [FilterArg(Filter(n, n, None, Some(logs[|logs| - 1].topics[0])))])];
    }
    assert tests == LogProbes(n, receipt.item);
    tests := tests + FixedTxProbes(probeSet, n, blockHash, index, tx.hash, signer);
    r := Done(tests);
  }

  /** Transaction `i` either aborts the list with its error or contributes
      its probes ahead of the later transactions'. */
  lemma TxsProbesStep(probeSet: TxProbeSet, p: Provider, n: nat, blockHash: Hash, first: nat, body: seq<Tx>, i: nat,
                      prefix: seq<Probe>)
    requires i < |body|
    ensures var step := TxProbes(probeSet, p, n, blockHash, first, i, body[i]);
            && (step.Aborted? ==> Prepend(prefix, TxsProbes(probeSet, p, n, blockHash, first, body, i)) == Aborted(step.error))
            && (step.Done? ==> Prepend(prefix, TxsProbes(probeSet, p, n, blockHash, first, body, i))
                               == Prepend(prefix + step.value, TxsProbes(probeSet, p, n, blockHash, first, body, i + 1)))
  {
    var step := TxProbes(probeSet, p, n, blockHash, first, i, body[i]);
    if step.Done? {
      PrependTwice(prefix, step.value, TxsProbes(probeSet, p, n, blockHash, first, body, i + 1));
    }
  }

  /** A block read with the number asked for and its body indices: the
      block-level probes come first, then the transactions'. */
  lemma BlockTestsFound(probeSet: TxProbeSet, p: Provider, n: nat)
    requires p.block(n).Found? && p.block(n).item.number == n && p.firstTxNum(n).Found?
    ensures BlockTests(probeSet, p, n)
            == Prepend(BlockProbes(n, p.block(n).item.hash),
                       TxsProbes(probeSet, p, n, p.block(n).item.hash, p.firstTxNum(n).item, p.block(n).item.body, 0))
  {
  }

  lemma PrependNone<T>(a: seq<T>, r: Run<seq<T>>)
    requires r == Done([])
    ensures Prepend(a, r) == Done(a)
  {
    assert a + [] == a;
  }

  /** `test_per_block`'s builder for one block: reads the block and its body
      indices, pushes the block-level probes, then for each transaction in
      order its probes. */
  method BuildBlockTests(probeSet: TxProbeSet, p: Provider, n: nat) returns (r: Run<seq<Probe>>)
    ensures r == BlockTests(probeSet, p, n)
  {
    var fetched := p.block(n);
    if fetched.ProviderError? { return Aborted(ProviderFailed(fetched.message)); }
    if fetched.Absent? { return Aborted(Panicked("block should exist")); }
    var block := fetched.item;
    if block.number != n { return Aborted(Panicked("assertion `left == right` failed")); }
    var indices := p.firstTxNum(n);
    if indices.ProviderError? { return Aborted(ProviderFailed(indices.message)); }
    if indices.Absent? { return Aborted(Panicked("should have body indices")); }
    var first := indices.item;
    var blockHash := block.hash;

    BlockTestsFound(probeSet, p, n);
    r := BuildTxsTests(probeSet, p, n, blockHash, first, block.body, BlockProbes(n, blockHash));
  }

  /** The transaction loop of `test_per_block`: appends each transaction's
      probes, in body order, to the block-level ones. */
  method BuildTxsTests(probeSet: TxProbeSet, p: Provider, n: nat, blockHash: Hash, first: nat, body: seq<Tx>,
                       blockProbes: seq<Probe>)
    returns (r: Run<seq<Probe>>)
    ensures r == Prepend(blockProbes, TxsProbes(probeSet, p, n, blockHash, first, body, 0))
  {
    ghost var whole := Prepend(blockProbes, TxsProbes(probeSet, p, n, blockHash, first, body, 0));
    var tests := blockProbes;
    var index := 0;
    while index < |body|
      invariant 0 <= index <= |body|
      invariant whole == Prepend(tests, TxsProbes(probeSet, p, n, blockHash, first, body, index))
    {
      var step := BuildTxTests(probeSet, p, n, blockHash, first, index, body[index]);
      TxsProbesStep(probeSet, p, n, blockHash, first, body, index, tests);
      if step.Aborted? {
        return Aborted(step.error);
      }
      tests := tests + step.value;
      index := index + 1;
    }
    PrependNone(tests, TxsProbes(probeSet, p, n, blockHash, first, body, index));
    r := Done(tests);
  }

  /** The probes other than `debug_trace_transaction`, in order. */
  function WithoutTraces(ps: seq<Probe>): (qs: seq<Probe>)
    ensures |qs| <= |ps|
    ensures forall i :: 0 <= i < |qs| ==> qs[i].name != "debug_trace_transaction"
  {
    if ps == [] then []
    else (if ps[0].name == "debug_trace_transaction" then [] else [ps[0]]) + WithoutTraces(ps[1..])
  }

  lemma {:induction false} WithoutTracesAppend(a: seq<Probe>, b: seq<Probe>)
    ensures WithoutTraces(a + b) == WithoutTraces(a) + WithoutTraces(b)
  {
    if a == [] {
      assert a + b == b;
    } else {
      assert (a + b)[0] == a[0];
      assert (a + b)[1..] == a[1..] + b;
      WithoutTracesAppend(a[1..], b);
    }
  }

  /** A list without traced probes is its own trace-free part. */
  lemma {:induction false} WithoutTracesIdentity(ps: seq<Probe>)
    requires forall i :: 0 <= i < |ps| ==> ps[i].name != "debug_trace_transaction"
    ensures WithoutTraces(ps) == ps
  {
    if ps != [] {
      WithoutTracesIdentity(ps[1..]);
      assert ps == [ps[0]] + ps[1..];
    }
  }

  /** No block-level probe is a trace probe. */
  lemma BlockProbesUntraced(n: nat, blockHash: Hash)
    ensures WithoutTraces(BlockProbes(n, blockHash)) == BlockProbes(n, blockHash)
  {
    assert Names(BlockProbes(n, blockHash)) == BLOCK_PROBE_NAMES;
    WithoutTracesIdentity(BlockProbes(n, blockHash));
  }

  lemma FixedTxProbesTrace(n: nat, blockHash: Hash, index: nat, txHash: Hash, signer: Address)
    ensures WithoutTraces(FixedTxProbes(Ten, n, blockHash, index, txHash, signer))
            == FixedTxProbes(Nine, n, blockHash, index, txHash, signer)
  {
    var nine := FixedTxProbes(Nine, n, blockHash, index, txHash, signer);
    var ten := FixedTxProbes(Ten, n, blockHash, index, txHash, signer);
    assert ten == nine + [ten[9]];
    assert Names(nine) == TX_PROBE_NAMES[..9];
    WithoutTracesIdentity(nine);
    WithoutTracesAppend(nine, [ten[9]]);
  }

  lemma {:induction false} TxsProbesTrace(p: Provider, n: nat, blockHash: Hash, first: nat, body: seq<Tx>, i: nat)
    requires i <= |body| && TxsComplete(p, first, body, i)
    ensures BothCatalogsBuilt(p, n, blockHash, first, body, i)
    ensures WithoutTraces(TxsProbes(Ten, p, n, blockHash, first, body, i).value)
            == TxsProbes(Nine, p, n, blockHash, first, body, i).value
    decreases |body| - i
  {
    TxsProbesDoneIff(Nine, p, n, blockHash, first, body, i);
    TxsProbesDoneIff(Ten, p, n, blockHash, first, body, i);
    if i < |body| {
      TxsCompleteStep(p, first, body, i);
      TxsProbesTrace(p, n, blockHash, first, body, i + 1);
      var rc := p.receipt(first + i).item;
      var tx := body[i];
      var logs := LogProbes(n, rc);
      var ten := FixedTxProbes(Ten, n, blockHash, i, tx.hash, tx.signer.value);
      var nine := FixedTxProbes(Nine, n, blockHash, i, tx.hash, tx.signer.value);
      var restTen := TxsProbes(Ten, p, n, blockHash, first, body, i + 1).value;
      WithoutTracesIdentity(logs);
      FixedTxProbesTrace(n, blockHash, i, tx.hash, tx.signer.value);
      WithoutTracesAppend(logs + ten, restTen);
      WithoutTracesAppend(logs, ten);
    }
  }

  predicate BothCatalogsBuilt(p: Provider, n: nat, blockHash: Hash, first: nat, body: seq<Tx>, i: nat)
    requires i <= |body|
  {
    TxsProbes(Ten, p, n, blockHash, first, body, i).Done? && TxsProbes(Nine, p, n, blockHash, first, body, i).Done?
  }

  /** The ten-probe catalog is the nine-probe one with a
      `debug_trace_transaction` probe added per transaction: the two settle
      the same blocks, and dropping the traces from the longer list gives the
      shorter one. */
  lemma TenIsNinePlusTraces(p: Provider, n: nat)
    ensures BlockTests(Ten, p, n).Done? <==> BlockTests(Nine, p, n).Done?
    ensures BlockTests(Ten, p, n).Done? ==>
              WithoutTraces(BlockTests(Ten, p, n).value) == BlockTests(Nine, p, n).value
  {
    BlockTestsDoneIff(Ten, p, n);
    BlockTestsDoneIff(Nine, p, n);
    if BlockComplete(p, n) {
      var b := p.block(n).item;
      var first := p.firstTxNum(n).item;
      TxsProbesTrace(p, n, b.hash, first, b.body, 0);
      BlockTestsFound(Ten, p, n);
      BlockTestsFound(Nine, p, n);
      BlockProbesUntraced(n, b.hash);
      WithoutTracesAppend(BlockProbes(n, b.hash), TxsProbes(Ten, p, n, b.hash, first, b.body, 0).value);
    }
  }
}
