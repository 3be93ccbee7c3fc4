/** Verification of captured log messages against expected patterns
    (src/scottbrian_utils/log_verifier.py).

    A regular-expression match `re.compile(p).match(m)` is the parameter
    `matches(p, m)`; the captured records are the sequence of their
    message texts, in log order. */
module LogVerifier {
  import opened Optional

  /** The suffix `get_call_seq` appends to match a source line number. */
  const LineNumberPattern: string := ":[0-9]* "

  /** The result of matching expected patterns against actual messages. */
  datatype MatchResults = MatchResults(
    numExpRecords: nat,
    numExpUnmatched: nat,
    numActualRecords: nat,
    numActualUnmatched: nat,
    numRecordsMatched: nat,
    unmatchedExpRecords: seq<string>,
    unmatchedActualRecords: seq<string>,
    matchedRecords: seq<string>)

  datatype VerifyError =
    | UnmatchedExpectedMessages
    | UnmatchedActualMessages
    | IncorrectNumberOfMatchedMessages
    | NonZeroNumberOfMatchedMessages

  //--------------------------------------------------------------------------
  // Call sequences
  //--------------------------------------------------------------------------

  /** `get_call_seq(name)` on the stored map: the sequence and the line
      number pattern, or `None` where Python raises `KeyError`. */
  function CallSeqPattern(callSeqs: map<string, string>, name: string): (r: Option<string>)
    ensures r.Some? <==> name in callSeqs
    ensures r.Some? ==>
      (&& |r.value| == |callSeqs[name]| + |LineNumberPattern|
       && r.value[..|callSeqs[name]|] == callSeqs[name]
       && r.value[|callSeqs[name]|..] == LineNumberPattern)
  {
    if name in callSeqs then Some(callSeqs[name] + LineNumberPattern) else None
  }

  /** After `add_call_seq(name, s)` the pattern for `name` is built from
      `s`, whatever was stored before, and other names are unaffected. */
  lemma AddCallSeqThenGet(callSeqs: map<string, string>, name: string, s: string, other: string)
    requires other != name
    ensures CallSeqPattern(callSeqs[name := s], name) == Some(s + LineNumberPattern)
    ensures CallSeqPattern(callSeqs[name := s], other) == CallSeqPattern(callSeqs, other)
  {
  }

  //--------------------------------------------------------------------------
  // Greedy first-fit matching
  //--------------------------------------------------------------------------

  /** The first pattern at or after `from` that matches `msg`: the inner
      loop of get_match_results. */
  function FirstMatchFrom(pats: seq<string>, msg: string, matches: (string, string) -> bool, from: nat): (r: Option<nat>)
    requires from <= |pats|
    ensures r.Some? ==> from <= r.value < |pats| && matches(pats[r.value], msg)
    ensures r.Some? ==> forall j :: from <= j < r.value ==> !matches(pats[j], msg)
    ensures r.None? ==> forall j :: from <= j < |pats| ==> !matches(pats[j], msg)
    decreases |pats| - from
  {
    if from == |pats| then None
    else if matches(pats[from], msg) then Some(from)
    else FirstMatchFrom(pats, msg, matches, from + 1)
  }

  function FirstMatch(pats: seq<string>, msg: string, matches: (string, string) -> bool): Option<nat>
  {
    FirstMatchFrom(pats, msg, matches, 0)
  }

  /** `list.pop(i)`. */
  function RemoveAt(s: seq<string>, i: nat): seq<string>
    requires i < |s|
  {
    s[..i] + s[i + 1..]
  }

  /** `list.remove(x)`: drops the first element equal to `x` (Python
      raises `ValueError` when there is none; that never happens here,
      see MatchInvariantHolds). */
  function RemoveFirst(s: seq<string>, x: string): seq<string>
  {
    if s == [] then []
    else if s[0] == x then s[1..]
    else [s[0]] + RemoveFirst(s[1..], x)
  }

  /** The working lists after the outer loop has handled `k` messages,
      together with, for the proofs, which messages were matched and by
      which patterns. */
  datatype MatchState = MatchState(
    unmatchedExp: seq<string>,
    unmatchedActual: seq<string>,
    matched: seq<string>,
    paired: seq<string>,
    flags: seq<bool>)

  function MatchUpTo(exp: seq<string>, actual: seq<string>, k: nat, matches: (string, string) -> bool): MatchState
    requires k <= |actual|
  {
    if k == 0 then MatchState(exp, actual, [], [], [])
    else
      var st := MatchUpTo(exp, actual, k - 1, matches);
      var msg := actual[k - 1];
      match FirstMatch(st.unmatchedExp, msg, matches)
      case None => st.(flags := st.flags + [false])
      case Some(i) =>
        MatchState(
          RemoveAt(st.unmatchedExp, i),
          RemoveFirst(st.unmatchedActual, msg),
          st.matched + [msg],
          st.paired + [st.unmatchedExp[i]],
          st.flags + [true])
  }

  /** The three working lists of get_match_results. */
  function Handled(st: MatchState): (seq<string>, seq<string>, seq<string>)
  {
    (st.unmatchedExp, st.unmatchedActual, st.matched)
  }

  /** `get_match_results` for the expected patterns `exp` and the
      captured messages `actual`. */
  function MatchResultsOf(exp: seq<string>, actual: seq<string>, matches: (string, string) -> bool): MatchResults
  {
    var st := MatchUpTo(exp, actual, |actual|, matches);
    MatchResults(|exp|, |st.unmatchedExp|, |actual|, |st.unmatchedActual|, |st.matched|,
                 st.unmatchedExp, st.unmatchedActual, st.matched)
  }

  //--------------------------------------------------------------------------
  // Selecting the matched and the unmatched messages
  //--------------------------------------------------------------------------

  /** The elements of `s` whose flag is set, in order. */
  function Select<T>(s: seq<T>, keep: seq<bool>): (r: seq<T>)
    requires |s| == |keep|
    ensures |r| <= |s|
  {
    if s == [] then []
    else Select(s[..|s| - 1], keep[..|s| - 1]) + (if keep[|s| - 1] then [s[|s| - 1]] else [])
  }

  function Not(flags: seq<bool>): (r: seq<bool>)
    ensures |r| == |flags|
    ensures forall i :: 0 <= i < |flags| ==> r[i] == !flags[i]
  {
    seq(|flags|, i requires 0 <= i < |flags| => !flags[i])
  }

  /** Every element goes to exactly one of the two selections. */
  lemma SelectSplit<T>(s: seq<T>, keep: seq<bool>)
    requires |s| == |keep|
    ensures |Select(s, keep)| + |Select(s, Not(keep))| == |s|
    ensures multiset(Select(s, keep)) + multiset(Select(s, Not(keep))) == multiset(s)
  {
    SelectSplitMultiset(s, keep);
    assert |multiset(Select(s, keep)) + multiset(Select(s, Not(keep)))| == |multiset(s)|;
  }

  lemma {:induction false} SelectSplitMultiset<T>(s: seq<T>, keep: seq<bool>)
    requires |s| == |keep|
    ensures multiset(Select(s, keep)) + multiset(Select(s, Not(keep))) == multiset(s)
    decreases |s|
  {
    if s != [] {
      var n := |s| - 1;
      SelectSplitMultiset(s[..n], keep[..n]);
      SelectLast(s, keep);
      var a, b, x := Select(s[..n], keep[..n]), Select(s[..n], Not(keep[..n])), s[n];
      MultisetLast(s);
      if keep[n] {
        assert multiset(a + [x]) == multiset(a) + multiset{x};
      } else {
        assert multiset(b + [x]) == multiset(b) + multiset{x};
      }
    }
  }

  lemma MultisetLast<T>(s: seq<T>)
    requires s != []
    ensures multiset(s) == multiset(s[..|s| - 1]) + multiset{s[|s| - 1]}
  {
    assert s == s[..|s| - 1] + [s[|s| - 1]];
  }

  /** The selections of a non-empty sequence: those of all but its last
      element, then the last element in the selection its flag picks. */
  lemma SelectLast<T>(s: seq<T>, keep: seq<bool>)
    requires |s| == |keep| && s != []
    ensures var n := |s| - 1;
      && Select(s, keep) == Select(s[..n], keep[..n]) + (if keep[n] then [s[n]] else [])
      && Select(s, Not(keep)) == Select(s[..n], Not(keep[..n])) + (if keep[n] then [] else [s[n]])
  {
    assert Not(keep)[..|s| - 1] == Not(keep[..|s| - 1]);
  }

  lemma RemoveFirstSkip(p: seq<string>, x: string, rest: seq<string>)
    requires x !in p
    ensures RemoveFirst(p + [x] + rest, x) == p + rest
    decreases |p|
  {
    if p != [] {
      assert (p + [x] + rest)[1..] == p[1..] + [x] + rest;
      RemoveFirstSkip(p[1..], x, rest);
    }
  }

  lemma RemoveAtMultiset(s: seq<string>, i: nat)
    requires i < |s|
    ensures multiset(RemoveAt(s, i)) + multiset{s[i]} == multiset(s)
    ensures forall x :: x in RemoveAt(s, i) ==> x in s
  {
    assert s == s[..i] + [s[i]] + s[i + 1..];
  }

  /** What the outer loop keeps true of the working lists `st` after `k`
      messages: the unmatched actual messages are the skipped ones followed
      by those not yet handled; the matched ones are the rest of the handled
      ones, each matched by its own pattern; the patterns are conserved; and
      no pattern left matches a skipped message. */
  predicate StateInv(exp: seq<string>, actual: seq<string>, k: nat, st: MatchState, matches: (string, string) -> bool)
    requires k <= |actual|
  {
    && |st.flags| == k
    && st.unmatchedActual == Select(actual[..k], Not(st.flags)) + actual[k..]
    && st.matched == Select(actual[..k], st.flags)
    && |st.paired| == |st.matched|
    && (forall j :: 0 <= j < |st.paired| ==> matches(st.paired[j], st.matched[j]))
    && multiset(st.unmatchedExp) + multiset(st.paired) == multiset(exp)
    && (forall p, m :: p in st.unmatchedExp && m in Select(actual[..k], Not(st.flags)) ==> !matches(p, m))
  }

  lemma {:induction false} MatchInvariantHolds(exp: seq<string>, actual: seq<string>, k: nat, matches: (string, string) -> bool)
    requires k <= |actual|
    ensures StateInv(exp, actual, k, MatchUpTo(exp, actual, k, matches), matches)
    decreases k
  {
    if k == 0 {
      assert actual[..0] == [];
    } else {
      var st := MatchUpTo(exp, actual, k - 1, matches);
      MatchInvariantHolds(exp, actual, k - 1, matches);
      var fm := FirstMatch(st.unmatchedExp, actual[k - 1], matches);
      if fm.None? {
        MatchStepSkipped(exp, actual, k - 1, st, matches);
      } else {
        MatchStepMatched(exp, actual, k - 1, st, fm.value, matches);
      }
    }
  }

  /** Handling one more message extends the selections by that message. */
  lemma SelectStep(actual: seq<string>, k: nat, flags: seq<bool>, b: bool)
    requires k < |actual| && |flags| == k
    ensures Select(actual[..k + 1], flags + [b]) == Select(actual[..k], flags) + (if b then [actual[k]] else [])
    ensures Select(actual[..k + 1], Not(flags + [b])) == Select(actual[..k], Not(flags)) + (if b then [] else [actual[k]])
  {
    assert actual[..k + 1][..k] == actual[..k];
    assert (flags + [b])[..k] == flags;
    assert Not(flags + [b])[..k] == Not(flags);
  }

  lemma MatchStepSkipped(exp: seq<string>, actual: seq<string>, k: nat, st: MatchState, matches: (string, string) -> bool)
    requires k < |actual|
    requires StateInv(exp, actual, k, st, matches)
    requires FirstMatch(st.unmatchedExp, actual[k], matches).None?
    ensures StateInv(exp, actual, k + 1, st.(flags := st.flags + [false]), matches)
  {
    var skipped := Select(actual[..k], Not(st.flags));
    SelectStep(actual, k, st.flags, false);
    assert actual[k..] == [actual[k]] + actual[k + 1..];
    assert skipped + actual[k..] == (skipped + [actual[k]]) + actual[k + 1..];
  }

  lemma MatchStepMatched(exp: seq<string>, actual: seq<string>, k: nat, st: MatchState, i: nat, matches: (string, string) -> bool)
    requires k < |actual|
    requires StateInv(exp, actual, k, st, matches)
    requires FirstMatch(st.unmatchedExp, actual[k], matches) == Some(i)
    ensures i < |st.unmatchedExp|
    ensures StateInv(exp, actual, k + 1,
      MatchState(RemoveAt(st.unmatchedExp, i), RemoveFirst(st.unmatchedActual, actual[k]),
                 st.matched + [actual[k]], st.paired + [st.unmatchedExp[i]], st.flags + [true]), matches)
  {
    var msg, pat := actual[k], st.unmatchedExp[i];
    var skipped := Select(actual[..k], Not(st.flags));
    var st' := MatchState(RemoveAt(st.unmatchedExp, i), RemoveFirst(st.unmatchedActual, msg),
                          st.matched + [msg], st.paired + [pat], st.flags + [true]);
    SelectStep(actual, k, st.flags, true);
    MatchedNotSkipped(st.unmatchedExp, skipped, i, msg, matches);
    MatchedRemoved(actual, k, skipped, st.unmatchedActual);
    PairedStep(st.paired, st.matched, pat, msg, matches);
    RemovePatternStep(exp, st.unmatchedExp, st.paired, i);
    RemovePatternKeepsMaximal(st.unmatchedExp, skipped, i, matches);
  }

  /** A message a pattern left over matches was never skipped. */
  lemma MatchedNotSkipped(pats: seq<string>, skipped: seq<string>, i: nat, msg: string, matches: (string, string) -> bool)
    requires i < |pats| && matches(pats[i], msg)
    requires forall p, m :: p in pats && m in skipped ==> !matches(p, m)
    ensures msg !in skipped
  {
    assert pats[i] in pats;
  }

  /** Removing a message that was not skipped from the unmatched messages
      leaves the skipped ones followed by those after it. */
  lemma MatchedRemoved(actual: seq<string>, k: nat, skipped: seq<string>, unmatched: seq<string>)
    requires k < |actual| && actual[k] !in skipped
    requires unmatched == skipped + actual[k..]
    ensures RemoveFirst(unmatched, actual[k]) == skipped + actual[k + 1..]
  {
    assert actual[k..] == [actual[k]] + actual[k + 1..];
    assert unmatched == skipped + [actual[k]] + actual[k + 1..];
    RemoveFirstSkip(skipped, actual[k], actual[k + 1..]);
  }

  /** Pairing one more message with the pattern that matched it. */
  lemma PairedStep(paired: seq<string>, matched: seq<string>, pat: string, msg: string, matches: (string, string) -> bool)
    requires |paired| == |matched| && matches(pat, msg)
    requires forall j :: 0 <= j < |paired| ==> matches(paired[j], matched[j])
    ensures forall j :: 0 <= j < |paired| + 1 ==> matches((paired + [pat])[j], (matched + [msg])[j])
  {
  }

  /** Moving a pattern from the unmatched ones to the paired ones
      conserves the patterns. */
  lemma RemovePatternStep(exp: seq<string>, pats: seq<string>, paired: seq<string>, i: nat)
    requires i < |pats|
    requires multiset(pats) + multiset(paired) == multiset(exp)
    ensures multiset(RemoveAt(pats, i)) + multiset(paired + [pats[i]]) == multiset(exp)
  {
    RemoveAtMultiset(pats, i);
  }

  /** Removing a pattern keeps every pattern left unable to match a
      skipped message. */
  lemma RemovePatternKeepsMaximal(pats: seq<string>, skipped: seq<string>, i: nat, matches: (string, string) -> bool)
    requires i < |pats|
    requires forall p, m :: p in pats && m in skipped ==> !matches(p, m)
    ensures forall p, m :: p in RemoveAt(pats, i) && m in skipped ==> !matches(p, m)
  {
    RemoveAtMultiset(pats, i);
  }

  /** What the invariant says once every message has been handled. */
  lemma FinalState(exp: seq<string>, actual: seq<string>, matches: (string, string) -> bool)
    ensures var st := MatchUpTo(exp, actual, |actual|, matches);
      && |st.flags| == |actual|
      && st.unmatchedActual == Select(actual, Not(st.flags))
      && st.matched == Select(actual, st.flags)
      && |st.paired| == |st.matched|
      && (forall j :: 0 <= j < |st.paired| ==> matches(st.paired[j], st.matched[j]))
      && multiset(st.unmatchedExp) + multiset(st.paired) == multiset(exp)
      && (forall p, m :: p in st.unmatchedExp && m in st.unmatchedActual ==> !matches(p, m))
  {
    MatchInvariantHolds(exp, actual, |actual|, matches);
    assert actual[..|actual|] == actual;
    assert actual[|actual|..] == [];
  }

  /** Handling message `k`: removed with the first pattern that matches
      it, or skipped when none does. */
  lemma MatchUpToNext(exp: seq<string>, actual: seq<string>, k: nat, matches: (string, string) -> bool)
    requires k < |actual|
    ensures var st, msg := MatchUpTo(exp, actual, k, matches), actual[k];
      MatchUpTo(exp, actual, k + 1, matches) ==
        match FirstMatch(st.unmatchedExp, msg, matches)
        case None => st.(flags := st.flags + [false])
        case Some(i) =>
          MatchState(RemoveAt(st.unmatchedExp, i), RemoveFirst(st.unmatchedActual, msg),
                     st.matched + [msg], st.paired + [st.unmatchedExp[i]], st.flags + [true])
  {
  }

  /** The counts of get_match_results are conserved: every expected pattern
      is matched or left over, and so is every actual message. */
  lemma MatchCountsConserved(exp: seq<string>, actual: seq<string>, matches: (string, string) -> bool)
    ensures var r := MatchResultsOf(exp, actual, matches);
      && r.numExpRecords == |exp| && r.numActualRecords == |actual|
      && r.numExpRecords == r.numExpUnmatched + r.numRecordsMatched
      && r.numActualRecords == r.numActualUnmatched + r.numRecordsMatched
  {
    var st := MatchUpTo(exp, actual, |actual|, matches);
    FinalState(exp, actual, matches);
    SelectSplit(actual, st.flags);
    assert |multiset(st.unmatchedExp) + multiset(st.paired)| == |exp|;
  }

  /** `flags` picks the matched messages out of the log, the others are
      the unmatched ones, and `paired` holds the pattern that matched each
      matched message: together with the unmatched patterns, the expected
      ones. */
  predicate Partitioned(exp: seq<string>, actual: seq<string>, matches: (string, string) -> bool, r: MatchResults, flags: seq<bool>, paired: seq<string>)
  {
    && |flags| == |actual| && |paired| == |r.matchedRecords|
    && r.matchedRecords == Select(actual, flags)
    && r.unmatchedActualRecords == Select(actual, Not(flags))
    && (forall j :: 0 <= j < |paired| ==> matches(paired[j], r.matchedRecords[j]))
    && multiset(r.unmatchedExpRecords) + multiset(paired) == multiset(exp)
  }

  /** The matched and the unmatched messages partition the log, each kept
      in log order; every matched message was matched by its own expected
      pattern, and the unmatched patterns are what is left of the
      expected ones. */
  lemma MatchPartition(exp: seq<string>, actual: seq<string>, matches: (string, string) -> bool)
    ensures exists flags, paired :: Partitioned(exp, actual, matches, MatchResultsOf(exp, actual, matches), flags, paired)
  {
    FinalState(exp, actual, matches);
    var st := MatchUpTo(exp, actual, |actual|, matches);
    assert Partitioned(exp, actual, matches, MatchResultsOf(exp, actual, matches), st.flags, st.paired);
  }

  /** Matching is maximal: no expected pattern left over matches any
      actual message left over. */
  lemma MatchMaximal(exp: seq<string>, actual: seq<string>, matches: (string, string) -> bool)
    ensures var r := MatchResultsOf(exp, actual, matches);
      forall p, m :: p in r.unmatchedExpRecords && m in r.unmatchedActualRecords ==> !matches(p, m)
  {
    FinalState(exp, actual, matches);
  }

  //--------------------------------------------------------------------------
  // verify_log_results
  //--------------------------------------------------------------------------

  /** `verify_log_results(results, log_enabled_tf)`: the error it raises,
      if any, in its order of priority. */
  function VerifyLogResults(r: MatchResults, logEnabled: bool): (e: Option<VerifyError>)
    ensures logEnabled && r.numExpUnmatched > 0 ==> e == Some(UnmatchedExpectedMessages)
    ensures logEnabled && r.numExpUnmatched == 0 && r.numActualUnmatched > 0 ==> e == Some(UnmatchedActualMessages)
    ensures (logEnabled && r.numExpUnmatched == 0 && r.numActualUnmatched == 0
             && r.numRecordsMatched != r.numActualRecords) ==> e == Some(IncorrectNumberOfMatchedMessages)
    ensures logEnabled ==> (e.None? <==>
      r.numExpUnmatched == 0 && r.numActualUnmatched == 0 && r.numRecordsMatched == r.numActualRecords)
    ensures !logEnabled ==> (e.None? <==> r.numRecordsMatched == 0)
    ensures !logEnabled && e.Some? ==> e.value == NonZeroNumberOfMatchedMessages
  {
    if logEnabled then
      if r.numExpUnmatched != 0 then Some(UnmatchedExpectedMessages)
      else if r.numActualUnmatched != 0 then Some(UnmatchedActualMessages)
      else if r.numRecordsMatched != r.numActualRecords then Some(IncorrectNumberOfMatchedMessages)
      else None
    else if r.numRecordsMatched != 0 then Some(NonZeroNumberOfMatchedMessages)
    else None
  }

  /** On results of get_match_results with logging enabled, verification
      passes exactly when every expected pattern and every actual message
      was matched, so IncorrectNumberOfMatchedMessages is never raised. */
  lemma VerifyEnabledPassIff(exp: seq<string>, actual: seq<string>, matches: (string, string) -> bool)
    ensures var r := MatchResultsOf(exp, actual, matches);
      && (VerifyLogResults(r, true).None? <==> r.numExpUnmatched == 0 && r.numActualUnmatched == 0)
      && VerifyLogResults(r, true) != Some(IncorrectNumberOfMatchedMessages)
  {
    MatchCountsConserved(exp, actual, matches);
  }

  //--------------------------------------------------------------------------
  // The verifier object
  //--------------------------------------------------------------------------

  class LogVer {
    var callSeqs: map<string, string>
    /** The expected patterns, in the order they were added. */
    var expectedMessages: seq<string>

    /** `LogVer()`. */
    constructor()
      ensures callSeqs == map[] && expectedMessages == []
    {
      callSeqs := map[];
      expectedMessages := [];
    }

    /** `add_call_seq(name, seq)`: stores or replaces the sequence. */
    method AddCallSeq(name: string, s: string)
      modifies this
      ensures callSeqs == old(callSeqs)[name := s]
      ensures expectedMessages == old(expectedMessages)
    {
      callSeqs := callSeqs[name := s];
    }

    /** `get_call_seq(name)`. */
    function GetCallSeq(name: string): (r: Option<string>)
      reads this
      ensures r.Some? <==> name in callSeqs
      ensures r.Some? ==> r.value == callSeqs[name] + LineNumberPattern
    {
      CallSeqPattern(callSeqs, name)
    }

    /** `add_msg(log_msg)`: appends one expected pattern. */
    method AddMsg(logMsg: string)
      modifies this
      ensures expectedMessages == old(expectedMessages) + [logMsg]
      ensures callSeqs == old(callSeqs)
    {
      expectedMessages := expectedMessages + [logMsg];
    }

    /** `get_match_results(caplog)` for the captured messages `actual`;
        the expected patterns are copied, never changed. */
    method GetMatchResults(actual: seq<string>, matches: (string, string) -> bool) returns (r: MatchResults)
      ensures r == MatchResultsOf(expectedMessages, actual, matches)
    {
      var unmatchedExp: seq<string> := [];
      var unmatchedActual: seq<string> := [];
      var matched: seq<string> := [];

      var j := 0;
      while j < |expectedMessages|
        invariant 0 <= j <= |expectedMessages|
        invariant unmatchedExp == expectedMessages[..j]
      {
        unmatchedExp := unmatchedExp + [expectedMessages[j]];
        j := j + 1;
      }
      assert expectedMessages[..|expectedMessages|] == expectedMessages;
      j := 0;
      while j < |actual|
        invariant 0 <= j <= |actual|
        invariant unmatchedActual == actual[..j]
      {
        unmatchedActual := unmatchedActual + [actual[j]];
        j := j + 1;
      }
      assert actual[..|actual|] == actual;

      var k := 0;
      while k < |actual|
        invariant 0 <= k <= |actual|
        invariant (unmatchedExp, unmatchedActual, matched) == Handled(MatchUpTo(expectedMessages, actual, k, matches))
      {
        var msg := actual[k];
        ghost var st := MatchUpTo(expectedMessages, actual, k, matches);
        MatchUpToNext(expectedMessages, actual, k, matches);
        var idx := 0;
        while idx < |unmatchedExp|
          invariant 0 <= idx <= |unmatchedExp|
          invariant unmatchedExp == st.unmatchedExp
          invariant unmatchedActual == st.unmatchedActual && matched == st.matched
          invariant FirstMatch(st.unmatchedExp, msg, matches) == FirstMatchFrom(st.unmatchedExp, msg, matches, idx)
        {
          if matches(unmatchedExp[idx], msg) {
            assert FirstMatch(st.unmatchedExp, msg, matches) == Some(idx);
            unmatchedExp := unmatchedExp[..idx] + unmatchedExp[idx + 1..];
            unmatchedActual := RemoveFirst(unmatchedActual, msg);
            matched := matched + [msg];
            assert (unmatchedExp, unmatchedActual, matched) == Handled(MatchUpTo(expectedMessages, actual, k + 1, matches));
            break;
          }
          idx := idx + 1;
        }
        assert (unmatchedExp, unmatchedActual, matched) == Handled(MatchUpTo(expectedMessages, actual, k + 1, matches));
        k := k + 1;
      }

      r := MatchResults(|expectedMessages|, |unmatchedExp|, |actual|, |unmatchedActual|, |matched|,
                        unmatchedExp, unmatchedActual, matched);
    }
  }
}
