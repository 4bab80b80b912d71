/** The reporter that judges a differing answer by JSON inclusion and returns
    an overall verdict (`report` and `find_diffs` in
    crates/tester-common/src/rpc/report.rs). It matches its own error shape,
    `Diff{rpc1, rpc2}`, `Rpc1Err`, `Rpc2Err`. Output is the sequence of texts
    written, `println!(x)` writing `x + "\n"`. */
module InclusionReport {
  import opened Values

  datatype TestError<V> = Diff(rpc1: V, rpc2: V) | Rpc1Err(message: string) | Rpc2Err(message: string)

  datatype Outcome<V> = Ok | Err(error: TestError<V>)

  type Entry<V> = (string, Outcome<V>)

  type TestUnit<V> = (string, seq<Entry<V>>)

  /** The JSON inclusion check delegated to `assert_json_include!(actual:
      rpc1, expected: rpc2)`: `includes(rpc1, rpc2)` holds when rpc2's value
      is included in rpc1's, and `message(rpc1, rpc2)` is the text of the
      panic raised when it is not. Both are the library's and stay abstract. */
  datatype Inclusion<!V> = Inclusion(includes: (V, V) -> bool, message: (V, V) -> string)

  /** The verdict `report` returns: `Ok(())`, or the error "Failed.". */
  datatype Verdict = Passed | Failed(message: string)

  const HEADER: string := "\n--- RPC Method Test Results ---\n"
  const FOOTER: string := "--------------------------------\n\n"

  function PassLine(title: string): string { title + " ✅\n" }
  function FailHeader(title: string): string { "\n" + title + " ❌\n" }
  function FailureLine(name: string): string { "    " + name + ": ❌ Failure \n" }
  function ErrorLine(title: string, err: string): string { "\n" + title + " ❌\n" + err + "\n" }

  predicate StartsWith(s: string, prefix: string)
  {
    |prefix| <= |s| && s[..|prefix|] == prefix
  }

  /** `pattern` occurs somewhere in `s`. */
  predicate Contains(s: string, pattern: string)
    decreases |s|
  {
    StartsWith(s, pattern) || (|s| > 0 && Contains(s[1..], pattern))
  }

  /** `str::replace`: every non-overlapping occurrence, scanning left to right. */
  function ReplaceAll(s: string, pattern: string, replacement: string): string
    requires |pattern| > 0
    decreases |s|
  {
    if |s| == 0 then []
    else if StartsWith(s, pattern) then replacement + ReplaceAll(s[|pattern|..], pattern, replacement)
    else [s[0]] + ReplaceAll(s[1..], pattern, replacement)
  }

  lemma {:induction false} ReplaceAbsentIsIdentity(s: string, pattern: string, replacement: string)
    requires |pattern| > 0 && !Contains(s, pattern)
    ensures ReplaceAll(s, pattern, replacement) == s
  {
    if |s| > 0 {
      ReplaceAbsentIsIdentity(s[1..], pattern, replacement);
      assert s == [s[0]] + s[1..];
    }
  }

  lemma ContainsCons(c: char, t: string, pattern: string)
    ensures Contains([c] + t, pattern) <==> StartsWith([c] + t, pattern) || Contains(t, pattern)
  {
    assert ([c] + t)[1..] == t;
  }

  lemma StartsWithCons(c: char, rest: string, q: string)
    requires |q| > 0
    ensures StartsWith([c] + rest, q) <==> q[0] == c && StartsWith(rest, q[1..])
  {
    var s := [c] + rest;
    if StartsWith(s, q) {
      assert q[0] == s[..|q|][0];
      forall i | 0 <= i < |q| - 1
        ensures rest[i] == q[1..][i]
      {
        assert s[..|q|][i + 1] == s[i + 1];
      }
      assert rest[..|q| - 1] == q[1..];
    }
    if q[0] == c && StartsWith(rest, q[1..]) {
      forall i | 0 <= i < |q|
        ensures s[i] == q[i]
      {
        if i > 0 {
          assert rest[..|q| - 1][i - 1] == q[1..][i - 1];
        }
      }
      assert s[..|q|] == q;
    }
  }

  /** A rewritten text that starts with an occurrence starts with "rpc1". */
  lemma RewriteStartsWithR(t: string)
    requires StartsWith(t, "actual")
    ensures StartsWith(ReplaceAll(t, "actual", "rpc1"), "r")
  {
    var rest := ReplaceAll(t[6..], "actual", "rpc1");
    assert ReplaceAll(t, "actual", "rpc1") == "rpc1" + rest;
    assert ("rpc1" + rest)[..1] == "r";
  }

  lemma RewriteNeverStartsWithoutR(t: string, q: string)
    requires StartsWith(t, "actual") && |q| > 0 && 'r' !in q
    ensures !StartsWith(ReplaceAll(t, "actual", "rpc1"), q)
  {
    RewriteStartsWithR(t);
    var r := ReplaceAll(t, "actual", "rpc1");
    assert r[0] == 'r' by {
      assert r[..1][0] == r[0];
    }
    if StartsWith(r, q) {
      HeadOfPrefix(r, q);
    }
  }

  lemma HeadOfPrefix(s: string, q: string)
    requires StartsWith(s, q) && |q| > 0
    ensures q[0] == s[0]
  {
    assert s[..|q|][0] == s[0];
  }

  /** A prefix of the rewritten text without an 'r' was already a prefix of
      the original: the rewrite only ever inserts "rpc1", which begins with 'r'. */
  lemma {:induction false} PrefixSurvivesRewrite(t: string, q: string)
    requires 'r' !in q && StartsWith(ReplaceAll(t, "actual", "rpc1"), q)
    ensures StartsWith(t, q)
  {
    if |q| > 0 && |t| > 0 && !StartsWith(t, "actual") {
      var rest := ReplaceAll(t[1..], "actual", "rpc1");
      assert ReplaceAll(t, "actual", "rpc1") == [t[0]] + rest;
      StartsWithCons(t[0], rest, q);
      assert 'r' !in q[1..] by {
        assert forall i :: 0 <= i < |q[1..]| ==> q[1..][i] == q[i + 1];
      }
      PrefixSurvivesRewrite(t[1..], q[1..]);
      StartsWithCons(t[0], t[1..], q);
      assert [t[0]] + t[1..] == t;
    } else if |q| > 0 && |t| > 0 {
      RewriteNeverStartsWithoutR(t, q);
      assert false;
    }
  }

  lemma NoActualAfterRpc1(rest: string)
    requires !Contains(rest, "actual")
    ensures !Contains("rpc1" + rest, "actual")
  {
    assert "rpc1" + rest == ['r'] + (['p'] + (['c'] + (['1'] + rest)));
    ContainsCons('1', rest, "actual");
    StartsWithCons('1', rest, "actual");
    ContainsCons('c', ['1'] + rest, "actual");
    StartsWithCons('c', ['1'] + rest, "actual");
    ContainsCons('p', ['c'] + (['1'] + rest), "actual");
    StartsWithCons('p', ['c'] + (['1'] + rest), "actual");
    ContainsCons('r', ['p'] + (['c'] + (['1'] + rest)), "actual");
    StartsWithCons('r', ['p'] + (['c'] + (['1'] + rest)), "actual");
  }

  lemma NoActualAfterKeptChar(s: string)
    requires |s| > 0 && !StartsWith(s, "actual")
    requires !Contains(ReplaceAll(s[1..], "actual", "rpc1"), "actual")
    ensures !Contains([s[0]] + ReplaceAll(s[1..], "actual", "rpc1"), "actual")
  {
    var rest := ReplaceAll(s[1..], "actual", "rpc1");
    ContainsCons(s[0], rest, "actual");
    StartsWithCons(s[0], rest, "actual");
    StartsWithCons(s[0], s[1..], "actual");
    assert [s[0]] + s[1..] == s;
    if StartsWith([s[0]] + rest, "actual") {
      assert "actual"[1..] == "ctual";
      PrefixSurvivesRewrite(s[1..], "ctual");
      assert false;
    }
  }

  /** After `find_diffs` rewrites its message, "actual" no longer occurs in it. */
  lemma {:induction false} RewriteRemovesActual(s: string)
    ensures !Contains(ReplaceAll(s, "actual", "rpc1"), "actual")
  {
    if |s| > 0 {
      if StartsWith(s, "actual") {
        RewriteRemovesActual(s[6..]);
        NoActualAfterRpc1(ReplaceAll(s[6..], "actual", "rpc1"));
      } else {
        RewriteRemovesActual(s[1..]);
        NoActualAfterKeptChar(s);
      }
    }
  }

  /** The first occurrence of "actual" becomes "rpc1": the text before it is
      kept and the rewrite continues after it. */
  lemma {:induction false} RewriteFirstOccurrence(u: string, v: string)
    requires forall i :: 0 <= i < |u| ==> !StartsWith((u + "actual" + v)[i..], "actual")
    ensures ReplaceAll(u + "actual" + v, "actual", "rpc1") == u + "rpc1" + ReplaceAll(v, "actual", "rpc1")
  {
    var s := u + "actual" + v;
    if |u| == 0 {
      assert s == "actual" + v;
      assert s[..6] == "actual";
      assert s[6..] == v;
    } else {
      assert s[0..] == s;
      assert !StartsWith(s, "actual");
      var t := u[1..] + "actual" + v;
      assert s[1..] == t;
      forall i | 0 <= i < |u[1..]|
        ensures !StartsWith(t[i..], "actual")
      {
        assert t[i..] == s[i + 1..];
      }
      RewriteFirstOccurrence(u[1..], v);
      assert u == [u[0]] + u[1..];
    }
  }

  lemma RewriteFacts(s: string)
    ensures !Contains(ReplaceAll(s, "actual", "rpc1"), "actual")
    ensures !Contains(s, "actual") ==> ReplaceAll(s, "actual", "rpc1") == s
  {
    RewriteRemovesActual(s);
    if !Contains(s, "actual") {
      ReplaceAbsentIsIdentity(s, "actual", "rpc1");
    }
  }

  /** `find_diffs`: `None` when rpc2's value is included in rpc1's, otherwise
      the library's message with every "actual" replaced by "rpc1". */
  function FindDiffs<V>(rpc1: V, rpc2: V, inc: Inclusion<V>): (r: Option<string>)
    ensures r.None? <==> inc.includes(rpc1, rpc2)
    ensures r.Some? ==> r.value == ReplaceAll(inc.message(rpc1, rpc2), "actual", "rpc1")
    ensures r.Some? ==> !Contains(r.value, "actual")
    ensures r.Some? && !Contains(inc.message(rpc1, rpc2), "actual") ==> r.value == inc.message(rpc1, rpc2)
  {
    if inc.includes(rpc1, rpc2) then None
    else
      var msg := inc.message(rpc1, rpc2);
      RewriteFacts(msg);
      Some(ReplaceAll(msg, "actual", "rpc1"))
  }

  /** An entry fails its title: a transport error on either side, or a diff
      that is not an inclusion. `Ok` never fails. */
  predicate Fails<V>(o: Outcome<V>, inc: Inclusion<V>)
  {
    match o
    case Ok => false
    case Err(Diff(a, b)) => FindDiffs(a, b, inc).Some?
    case Err(_) => true
  }

  predicate TitlePassed<V>(entries: seq<Entry<V>>, inc: Inclusion<V>)
  {
    forall i :: 0 <= i < |entries| ==> !Fails(entries[i].1, inc)
  }

  /** One pass of the inner loop: what it prints and the new `passed_title`. */
  function EntryStep<V>(title: string, e: Entry<V>, passedTitle: bool, inc: Inclusion<V>): (seq<string>, bool)
  {
    match e.1
    case Ok => ([], passedTitle)
    case Err(Diff(a, b)) =>
      (match FindDiffs(a, b, inc)
       case None => ([], passedTitle)
       case Some(d) => ((if passedTitle then [FailHeader(title)] else []) + [FailureLine(e.0), d + "\n"], false))
    case Err(Rpc1Err(m)) => ([ErrorLine(title, m)], false)
    case Err(Rpc2Err(m)) => ([ErrorLine(title, m)], false)
  }

  function EntriesStep<V>(title: string, es: seq<Entry<V>>, passedTitle: bool, inc: Inclusion<V>): (seq<string>, bool)
  {
    if es == [] then ([], passedTitle)
    else
      var first := EntryStep(title, es[0], passedTitle, inc);
      var rest := EntriesStep(title, es[1..], first.1, inc);
      (first.0 + rest.0, rest.1)
  }

  function TitleText<V>(u: TestUnit<V>, inc: Inclusion<V>): seq<string>
  {
    var step := EntriesStep(u.0, u.1, true, inc);
    step.0 + (if step.1 then [PassLine(u.0)] else [])
  }

  function UnitsText<V>(units: seq<TestUnit<V>>, inc: Inclusion<V>): seq<string>
  {
    if units == [] then [] else TitleText(units[0], inc) + UnitsText(units[1..], inc)
  }

  function ReportText<V>(units: seq<TestUnit<V>>, inc: Inclusion<V>): seq<string>
  {
    [HEADER] + UnitsText(units, inc) + [FOOTER]
  }

  /** `passed_title` ends true iff it started true and no entry failed. */
  lemma {:induction false} PassedTitleIff<V>(title: string, es: seq<Entry<V>>, flag: bool, inc: Inclusion<V>)
    ensures EntriesStep(title, es, flag, inc).1 == (flag && TitlePassed(es, inc))
  {
    if es != [] {
      var p0 := EntryStep(title, es[0], flag, inc).1;
      assert p0 == (flag && !Fails(es[0].1, inc));
      PassedTitleIff(title, es[1..], p0, inc);
      assert TitlePassed(es, inc) <==> !Fails(es[0].1, inc) && TitlePassed(es[1..], inc) by {
        assert forall i :: 1 <= i < |es| ==> es[i] == es[1..][i - 1];
      }
    }
  }

  /** The pass line is printed for a title iff no entry of it failed. */
  lemma PassLineIff<V>(u: TestUnit<V>, inc: Inclusion<V>)
    ensures TitleText(u, inc) == EntriesStep(u.0, u.1, true, inc).0
                                 + (if TitlePassed(u.1, inc) then [PassLine(u.0)] else [])
  {
    PassedTitleIff(u.0, u.1, true, inc);
  }

  predicate NoTransportErrors<V>(es: seq<Entry<V>>)
  {
    forall i :: 0 <= i < |es| ==> !(es[i].1.Err? && !es[i].1.error.Diff?)
  }

  /** The lines of the failing diffs, without any header. */
  function DiffFailureLines<V>(es: seq<Entry<V>>, inc: Inclusion<V>): seq<string>
  {
    if es == [] then []
    else
      (match es[0].1
       case Err(Diff(a, b)) =>
         (match FindDiffs(a, b, inc)
          case Some(d) => [FailureLine(es[0].0), d + "\n"]
          case None => [])
       case _ => [])
      + DiffFailureLines(es[1..], inc)
  }

  /** When a title has only diffs, the fail header is written once, before
      the first failing diff, and the failing diffs follow it in order. */
  lemma {:induction false} HeaderOnceBeforeFirstDiff<V>(title: string, es: seq<Entry<V>>, flag: bool, inc: Inclusion<V>)
    requires NoTransportErrors(es)
    ensures EntriesStep(title, es, flag, inc).0
            == (if flag && !TitlePassed(es, inc) then [FailHeader(title)] else []) + DiffFailureLines(es, inc)
  {
    if es != [] {
      var p0 := EntryStep(title, es[0], flag, inc).1;
      assert NoTransportErrors(es[1..]) by {
        assert forall i :: 1 <= i < |es| ==> es[i] == es[1..][i - 1];
      }
      HeaderOnceBeforeFirstDiff(title, es[1..], p0, inc);
      assert TitlePassed(es, inc) <==> !Fails(es[0].1, inc) && TitlePassed(es[1..], inc) by {
        assert forall i :: 1 <= i < |es| ==> es[i] == es[1..][i - 1];
      }
    }
  }

  /** The body of the inner loop: one result of a title. */
  method ReportEntry<V>(title: string, e: Entry<V>, passedTitle: bool, inc: Inclusion<V>)
    returns (lines: seq<string>, stillPassed: bool)
    ensures (lines, stillPassed) == EntryStep(title, e, passedTitle, inc)
  {
    var (name, result) := e;
    lines, stillPassed := [], passedTitle;
    match result {
      case Ok =>
      case Err(Diff(rpc1, rpc2)) =>
        var diffs := FindDiffs(rpc1, rpc2, inc);
        if diffs.Some? {
          if stillPassed {
            stillPassed := false;
            lines := [FailHeader(title)];
          }
          lines := lines + [FailureLine(name), diffs.value + "\n"];
        }
      case Err(Rpc1Err(err)) =>
        stillPassed := false;
        lines := [ErrorLine(title, err)];
      case Err(Rpc2Err(err)) =>
        stillPassed := false;
        lines := [ErrorLine(title, err)];
    }
  }

  /** The inner loop over one title's results, then its pass line. */
  method ReportTitle<V>(u: TestUnit<V>, inc: Inclusion<V>) returns (text: seq<string>, passedTitle: bool)
    ensures text == TitleText(u, inc)
    ensures passedTitle == TitlePassed(u.1, inc)
  {
    var title, results := u.0, u.1;
    passedTitle := true;
    text := [];
    assert results[0..] == results;
    for i := 0 to |results|
      invariant EntriesStep(title, results, true, inc).0
                == text + EntriesStep(title, results[i..], passedTitle, inc).0
      invariant EntriesStep(title, results, true, inc).1 == EntriesStep(title, results[i..], passedTitle, inc).1
    {
      assert results[i..][1..] == results[i + 1..];
      var lines, stillPassed := ReportEntry(title, results[i], passedTitle, inc);
      text := text + lines;
      passedTitle := stillPassed;
    }
    assert results[|results|..] == [];
    PassedTitleIff(title, results, true, inc);
    assert EntriesStep(title, results, true, inc).0 == text;
    if passedTitle {
      text := text + [PassLine(title)];
    }
  }

  /** `report`: renders every title and returns `Ok` iff every title passed. */
  method Report<V>(units: seq<TestUnit<V>>, inc: Inclusion<V>) returns (out: seq<string>, verdict: Verdict)
    ensures out == ReportText(units, inc)
    ensures verdict == Passed <==> forall i :: 0 <= i < |units| ==> TitlePassed(units[i].1, inc)
    ensures verdict.Failed? ==> verdict.message == "Failed."
  {
    var passed := true;
    var body: seq<string> := [];
    for t := 0 to |units|
      invariant body == UnitsText(units[..t], inc)
      invariant passed <==> forall i :: 0 <= i < t ==> TitlePassed(units[i].1, inc)
    {
      var text, passedTitle := ReportTitle(units[t], inc);
      UnitsTextAppend(units[..t], [units[t]], inc);
      assert UnitsText([units[t]], inc) == TitleText(units[t], inc) by {
        assert [units[t]][1..] == [];
      }
      assert units[..t + 1] == units[..t] + [units[t]];
      body := body + text;
      passed := passed && passedTitle;
    }
    assert units[..|units|] == units;
    out := [HEADER] + body + [FOOTER];
    verdict := if passed then Passed else Failed("Failed.");
  }

  lemma {:induction false} UnitsTextAppend<V>(a: seq<TestUnit<V>>, b: seq<TestUnit<V>>, inc: Inclusion<V>)
    ensures UnitsText(a + b, inc) == UnitsText(a, inc) + UnitsText(b, inc)
  {
    if a != [] {
      assert (a + b)[0] == a[0];
      assert (a + b)[1..] == a[1..] + b;
      UnitsTextAppend(a[1..], b, inc);
    } else {
      assert a + b == b;
    }
  }
}
