/**
  The driver loop of `pingdomToCheckly` (index.js:29-49) without its I/O:
  the check listing is a parameter, the per-check detail request is the
  function `fetch` from a check id to its detail record, and the list of
  checks that could not be converted is returned instead of being pushed
  onto a module-level array.
 */
module Migration {
  import opened Pingdom
  import opened Checkly
  import Seqs
  import Translator

  predicate NotPaused(c: CheckSummary) { c.status != "paused" }

  predicate HasHttp(c: PingdomCheck) { c.http.Some? }

  predicate LacksHttp(c: PingdomCheck) { c.http.None? }

  /** The listed checks that are not paused, in listing order. */
  function NonPausedChecks(listed: seq<CheckSummary>): (r: seq<CheckSummary>)
    ensures forall i :: 0 <= i < |r| ==> r[i] in listed && r[i].status != "paused"
    ensures forall i :: 0 <= i < |listed| && listed[i].status != "paused" ==> listed[i] in r
  {
    Seqs.Filter(NotPaused, listed)
  }

  /** The detail record of every listed check, in order. */
  function FetchAll(checks: seq<CheckSummary>, fetch: int -> PingdomCheck): (details: seq<PingdomCheck>)
    ensures |details| == |checks|
    ensures forall i :: 0 <= i < |checks| ==> details[i] == fetch(checks[i].id)
  {
    Seqs.Map((c: CheckSummary) => fetch(c.id), checks)
  }

  /** The conversions of the HTTP checks among `details`, in order. */
  function ConvertedChecks(details: seq<PingdomCheck>): (r: seq<ChecklyCheck>)
    ensures |r| <= |details|
  {
    if details == [] then []
    else
      var last := details[|details| - 1];
      ConvertedChecks(details[..|details| - 1]) + (if last.http.Some? then [Translator.Conversion(last)] else [])
  }

  /** The checks among `details` that are not HTTP checks, in order. */
  function Unconvertible(details: seq<PingdomCheck>): (r: seq<PingdomCheck>)
    ensures forall i :: 0 <= i < |r| ==> r[i] in details && r[i].http.None?
    ensures forall i :: 0 <= i < |details| && details[i].http.None? ==> details[i] in r
  {
    Seqs.Filter(LacksHttp, details)
  }

  /**
    Drops paused checks, fetches the detail of every remaining one, converts
    the HTTP checks and sets aside the others.
   */
  method PingdomToCheckly(listed: seq<CheckSummary>, fetch: int -> PingdomCheck)
    returns (checklyChecks: seq<ChecklyCheck>, couldNotConvert: seq<PingdomCheck>)
    ensures checklyChecks == ConvertedChecks(FetchAll(NonPausedChecks(listed), fetch))
    ensures couldNotConvert == Unconvertible(FetchAll(NonPausedChecks(listed), fetch))
  {
    var nonPausedChecks := NonPausedChecks(listed);
    ghost var details := FetchAll(nonPausedChecks, fetch);
    checklyChecks, couldNotConvert := [], [];
    for i := 0 to |nonPausedChecks|
      invariant checklyChecks == ConvertedChecks(details[..i])
      invariant couldNotConvert == Unconvertible(details[..i])
    {
      var pingdomCheck := fetch(nonPausedChecks[i].id);
      assert details[..i + 1] == details[..i] + [pingdomCheck];
      Seqs.FilterAppend(LacksHttp, details[..i], [pingdomCheck]);
      if pingdomCheck.http.None? {
        couldNotConvert := couldNotConvert + [pingdomCheck];
      } else {
        var checklyCheck := Translator.ConvertCheck(pingdomCheck);
        checklyChecks := checklyChecks + [checklyCheck];
      }
    }
    assert details[..|nonPausedChecks|] == details;
  }

  /** Every detail record lands in exactly one of the two lists, so the two counts add up to the number fetched. */
  lemma {:induction false} PartitionCounts(details: seq<PingdomCheck>)
    ensures |ConvertedChecks(details)| + |Unconvertible(details)| == |details|
    ensures |ConvertedChecks(details)| == |Seqs.Filter(HasHttp, details)|
  {
    if details != [] {
      PartitionCounts(details[..|details| - 1]);
    }
    Seqs.FilterComplementLength(HasHttp, LacksHttp, details);
  }

  /**
    The converted list is, position by position, the conversion of the HTTP
    checks among `details` in their original order.
   */
  lemma {:induction false} ConvertedChecksAreConversions(details: seq<PingdomCheck>)
    ensures var https := Seqs.Filter(HasHttp, details);
      |ConvertedChecks(details)| == |https|
      && forall i :: 0 <= i < |https| ==> https[i].http.Some? && ConvertedChecks(details)[i] == Translator.Conversion(https[i])
  {
    if details != [] {
      ConvertedChecksAreConversions(details[..|details| - 1]);
    }
  }

  /** Converting distributes over concatenation: the relative order of the converted checks is kept. */
  lemma {:induction false} ConvertedChecksAppend(a: seq<PingdomCheck>, b: seq<PingdomCheck>)
    ensures ConvertedChecks(a + b) == ConvertedChecks(a) + ConvertedChecks(b)
  {
    if b == [] {
      assert a + b == a;
    } else {
      var b' := b[..|b| - 1];
      assert (a + b)[..|a + b| - 1] == a + b';
      assert (a + b)[|a + b| - 1] == b[|b| - 1];
      ConvertedChecksAppend(a, b');
    }
  }

  /** Paused checks are dropped and the others keep their listing order. */
  lemma NonPausedAppend(a: seq<CheckSummary>, b: seq<CheckSummary>)
    ensures NonPausedChecks(a + b) == NonPausedChecks(a) + NonPausedChecks(b)
  {
    Seqs.FilterAppend(NotPaused, a, b);
  }
}
