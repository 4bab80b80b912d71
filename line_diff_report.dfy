/** The reporter that renders every failure as a line diff of the two
    serialised answers (`report` in crates/tester-common/src/rpc/utils.rs,
    repeated verbatim in reth-tester/src/equality.rs). Output is the sequence
    of texts the reporter writes, in order: `println!(x)` writes `x + "\n"`,
    `print!` of a diff change writes its sign followed by the changed line. */
module LineDiffReport {
  import opened TestOutcome

  datatype ChangeTag = Delete | Insert | Equal

  /** One change of a line diff; `text` is the line as the diff library yields it. */
  datatype Change = Change(tag: ChangeTag, text: string)

  const HEADER: string := "\n--- RPC Method Test Results ---\n"
  const FOOTER: string := "--------------------------------\n\n"

  function PassLine(title: string): string { title + " ✅\n" }
  function FailHeader(title: string): string { "\n" + title + " ❌\n" }
  function FailureLine(name: MethodName): string { "    " + name + ": ❌ Failure \n" }

  function Sign(tag: ChangeTag): string
  {
    match tag
    case Delete => "-"
    case Insert => "+"
    case Equal => " "
  }

  /** The failed entries of a unit with their names (`filter_map` over `err()`). */
  function Failures(results: seq<MethodResult>): (fs: seq<(MethodName, TestError)>)
    ensures |fs| <= |results|
  {
    if results == [] then []
    else
      (match results[0].1
       case Ok => []
       case Err(e) => [(results[0].0, e)])
      + Failures(results[1..])
  }

  /** Filtering keeps the original order: it distributes over concatenation. */
  lemma {:induction false} FailuresAppend(a: seq<MethodResult>, b: seq<MethodResult>)
    ensures Failures(a + b) == Failures(a) + Failures(b)
  {
    if a != [] {
      assert (a + b)[0] == a[0];
      assert (a + b)[1..] == a[1..] + b;
      FailuresAppend(a[1..], b);
    } else {
      assert a + b == b;
    }
  }

  /** A unit has no failures exactly when every one of its results is `Ok`. */
  lemma {:induction false} FailuresEmptyIff(results: seq<MethodResult>)
    ensures Failures(results) == [] <==> forall i :: 0 <= i < |results| ==> results[i].1 == Ok
  {
    if results != [] {
      FailuresEmptyIff(results[1..]);
      assert forall i :: 1 <= i < |results| ==> results[i] == results[1..][i - 1];
    }
  }

  /** The chunks a diff prints: each change prefixed with its sign. */
  function DiffText(changes: seq<Change>): (out: seq<string>)
    ensures |out| == |changes|
    ensures forall i :: 0 <= i < |changes| ==> out[i] == Sign(changes[i].tag) + changes[i].text
  {
    seq(|changes|, i requires 0 <= i < |changes| => Sign(changes[i].tag) + changes[i].text)
  }

  function ErrorText(err: TestError, diff: (string, string) -> seq<Change>): seq<string>
  {
    match err
    case Diff(local, remote) => DiffText(diff(local, remote))
    case LocalErr(m) => ["## Local node error: " + m + "\n"]
    case RemoteErr(m) => ["## Remote node error: " + m + "\n"]
  }

  function FailuresText(fs: seq<(MethodName, TestError)>, diff: (string, string) -> seq<Change>): seq<string>
  {
    if fs == [] then []
    else [FailureLine(fs[0].0)] + ErrorText(fs[0].1, diff) + FailuresText(fs[1..], diff)
  }

  function UnitText(u: TestUnit, diff: (string, string) -> seq<Change>): seq<string>
  {
    var fs := Failures(u.1);
    if fs == [] then [PassLine(u.0)] else [FailHeader(u.0)] + FailuresText(fs, diff)
  }

  function UnitsText(units: seq<TestUnit>, diff: (string, string) -> seq<Change>): seq<string>
  {
    if units == [] then [] else UnitText(units[0], diff) + UnitsText(units[1..], diff)
  }

  function ReportText(units: seq<TestUnit>, diff: (string, string) -> seq<Change>): seq<string>
  {
    [HEADER] + UnitsText(units, diff) + [FOOTER]
  }

  lemma {:induction false} FailuresTextAppend(a: seq<(MethodName, TestError)>, b: seq<(MethodName, TestError)>,
                                              diff: (string, string) -> seq<Change>)
    ensures FailuresText(a + b, diff) == FailuresText(a, diff) + FailuresText(b, diff)
  {
    if a != [] {
      assert (a + b)[0] == a[0];
      assert (a + b)[1..] == a[1..] + b;
      FailuresTextAppend(a[1..], b, diff);
    } else {
      assert a + b == b;
    }
  }

  /** Every unit is rendered, in input order, and none is skipped: the report
      of a concatenation is the concatenation of the reports. */
  lemma {:induction false} UnitsTextAppend(a: seq<TestUnit>, b: seq<TestUnit>,
                                           diff: (string, string) -> seq<Change>)
    ensures UnitsText(a + b, diff) == UnitsText(a, diff) + UnitsText(b, diff)
  {
    if a != [] {
      assert (a + b)[0] == a[0];
      assert (a + b)[1..] == a[1..] + b;
      UnitsTextAppend(a[1..], b, diff);
      var x := UnitText(a[0], diff);
      assert UnitsText(a + b, diff) == x + UnitsText(a[1..] + b, diff);
      assert x + (UnitsText(a[1..], diff) + UnitsText(b, diff)) == (x + UnitsText(a[1..], diff)) + UnitsText(b, diff);
    } else {
      assert a + b == b;
    }
  }

  /** A unit prints its pass line (and nothing else) iff none of its results
      failed; otherwise it starts with the fail header. */
  lemma UnitPassIff(u: TestUnit, diff: (string, string) -> seq<Change>)
    ensures UnitText(u, diff) == [PassLine(u.0)] <==> forall i :: 0 <= i < |u.1| ==> u.1[i].1 == Ok
    ensures (exists i :: 0 <= i < |u.1| && u.1[i].1 != Ok) ==> UnitText(u, diff)[0] == FailHeader(u.0)
  {
    FailuresEmptyIff(u.1);
    assert |FailHeader(u.0)| != |PassLine(u.0)|;
  }

  /** Failure entries follow the order of the results, one name line each. */
  lemma FailureEntryOrder(u: TestUnit, i: nat, diff: (string, string) -> seq<Change>)
    requires i < |u.1| && u.1[i].1.Err?
    ensures Failures(u.1) == Failures(u.1[..i]) + [(u.1[i].0, u.1[i].1.error)] + Failures(u.1[i + 1..])
  {
    assert u.1 == u.1[..i] + [u.1[i]] + u.1[i + 1..];
    FailuresAppend(u.1[..i] + [u.1[i]], u.1[i + 1..]);
    FailuresAppend(u.1[..i], [u.1[i]]);
    assert [u.1[i]][1..] == [];
  }

  /** The `filter_map` that collects a unit's failures. */
  method CollectFailures(results: seq<MethodResult>) returns (failures: seq<(MethodName, TestError)>)
    ensures failures == Failures(results)
  {
    failures := [];
    for j := 0 to |results|
      invariant failures == Failures(results[..j])
    {
      FailuresAppend(results[..j], [results[j]]);
      assert results[..j + 1] == results[..j] + [results[j]];
      assert [results[j]][1..] == [];
      if results[j].1.Err? {
        failures := failures + [(results[j].0, results[j].1.error)];
      }
    }
    assert results[..|results|] == results;
  }

  /** The inner loops over the diff's operations and their changes. */
  method PrintDiff(changes: seq<Change>) returns (printed: seq<string>)
    ensures printed == DiffText(changes)
  {
    printed := [];
    for c := 0 to |changes|
      invariant printed == DiffText(changes[..c])
    {
      printed := printed + [Sign(changes[c].tag) + changes[c].text];
    }
    assert changes[..|changes|] == changes;
  }

  /** One name line per failure, then its diff or its labelled error. */
  method PrintFailures(failures: seq<(MethodName, TestError)>, diff: (string, string) -> seq<Change>)
    returns (text: seq<string>)
    ensures text == FailuresText(failures, diff)
  {
    text := [];
    for k := 0 to |failures|
      invariant text == FailuresText(failures[..k], diff)
    {
      var (name, err) := failures[k];
      var entry := [FailureLine(name)];
      match err {
        case Diff(local, remote) =>
          var printed := PrintDiff(diff(local, remote));
          entry := entry + printed;
        case LocalErr(m) =>
          entry := entry + ["## Local node error: " + m + "\n"];
        case RemoteErr(m) =>
          entry := entry + ["## Remote node error: " + m + "\n"];
      }
      assert entry == FailuresText([failures[k]], diff);
      FailuresTextAppend(failures[..k], [failures[k]], diff);
      assert failures[..k + 1] == failures[..k] + [failures[k]];
      text := text + entry;
    }
    assert failures[..|failures|] == failures;
  }

  /** One unit: its pass line, or its fail header followed by each failure. */
  method PrintUnit(u: TestUnit, diff: (string, string) -> seq<Change>) returns (text: seq<string>)
    ensures text == UnitText(u, diff)
  {
    var failures := CollectFailures(u.1);
    if failures == [] {
      text := [PassLine(u.0)];
    } else {
      var printed := PrintFailures(failures, diff);
      text := [FailHeader(u.0)] + printed;
    }
  }

  /** Extending a prefix of the units by one unit extends its text by that unit's text. */
  lemma {:induction false} UnitsTextStep(units: seq<TestUnit>, u: nat, diff: (string, string) -> seq<Change>)
    requires u < |units|
    ensures UnitsText(units[..u + 1], diff) == UnitsText(units[..u], diff) + UnitText(units[u], diff)
  {
    var x := units[u];
    assert units[..u + 1] == units[..u] + [x];
    UnitsTextAppend(units[..u], [x], diff);
    UnitsTextSingle(x, diff);
  }

  lemma UnitsTextSingle(x: TestUnit, diff: (string, string) -> seq<Change>)
    ensures UnitsText([x], diff) == UnitText(x, diff)
  {
    assert [x][1..] == [];
  }

  /** `report`: the header, every unit in input order, the footer. */
  method Report(units: seq<TestUnit>, diff: (string, string) -> seq<Change>) returns (out: seq<string>)
    ensures out == ReportText(units, diff)
  {
    var body: seq<string> := [];
    for u := 0 to |units|
      invariant body == UnitsText(units[..u], diff)
    {
      var text := PrintUnit(units[u], diff);
      UnitsTextStep(units, u, diff);
      body := body + text;
    }
    assert units[..|units|] == units;
    out := [HEADER] + body + [FOOTER];
  }
}
