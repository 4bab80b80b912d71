/** The outcome classifier shared by every equality runner: one method call is
    issued against the local and the remote node and the pair of answers is
    folded into a single test result (`test_method` and the `TestError` type). */
module TestOutcome {
  import opened Values

  type MethodName = string

  /** Why a method failed its equality test; `Diff` carries both answers
      serialised as pretty-printed JSON. */
  datatype TestError =
    | Diff(local: string, remote: string)
    | LocalErr(message: string)
    | RemoteErr(message: string)

  /** The source's `Result<(), TestError>`. */
  datatype Outcome = Ok | Err(error: TestError)

  type MethodResult = (MethodName, Outcome)

  /** A titled group of results: one block, or the tested range. */
  type TestUnit = (string, seq<MethodResult>)

  /** Compares the answers of the local and the remote node to one call.
      Two successes are compared as decoded values, never as text; a local
      error wins over whatever the remote node answered. */
  function TestMethod<V(==)>(name: string, local: CallResult<V>, remote: CallResult<V>,
                             serialize: V -> string): (r: MethodResult)
    ensures r.0 == name
    ensures r.1 == Ok <==> local.Success? && remote.Success? && local.value == remote.value
    ensures local.Success? && remote.Success? && local.value != remote.value ==>
              r.1 == Err(Diff(serialize(local.value), serialize(remote.value)))
    ensures local.Failure? ==> r.1 == Err(LocalErr(local.message))
    ensures local.Success? && remote.Failure? ==> r.1 == Err(RemoteErr(remote.message))
  {
    var result :=
      match (local, remote)
      case (Success(l), Success(rv)) =>
        if l == rv then Ok else Err(Diff(serialize(l), serialize(rv)))
      case (Failure(e), _) => Err(LocalErr(e))
      case (Success(_), Failure(e)) => Err(RemoteErr(e));
    (name, result)
  }
}
