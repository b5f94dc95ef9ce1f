/**
 * The attempt loop of `_send` (lines 133-183). The network is the sequence
 * of outcomes successive attempts meet; the loop is a recursive function
 * that returns the recorded metadata together with the number of POSTs made
 * and the trace of sleep durations.
 *
 * The schedule's contents are never read: only its length matters, and the
 * sleep after failed attempt k (1-based) lasts k - 1, the loop index.
 */
module Delivery {
  import opened Wrappers
  import opened Text
  import opened Config

  /** What one attempt meets inside the `try`: a response, or an exception with its message. */
  datatype Outcome =
    | Response(status: int, text: string, content: string)
    | Raised(message: string)

  /** Any status in [200, 300) is a success. */
  predicate IsSuccess(o: Outcome) {
    o.Response? && 200 <= o.status < 300
  }

  /** The recorded error of a failed attempt. */
  function FailureMessage(o: Outcome): string
    requires !IsSuccess(o)
  {
    match o
    case Response(status, text, _) => "Status code (" + Decimal(status) + "). Message: " + text
    case Raised(message) => ReplaceQuotes(message)
  }

  /** The response body synthesized when an attempt raises. */
  function FailureBody(error: string): string {
    "{\"status_code\": 500, \"status\":\"failure\",\"error\":\"" + error + "\"}"
  }

  /** The number of attempts a schedule of the given length allows: `len(attempts) - 1`, never negative. */
  function AttemptCount(scheduleLength: nat): (n: nat)
    ensures n < scheduleLength || scheduleLength == 0
    ensures n + 1 >= scheduleLength
    ensures scheduleLength <= 1 ==> n == 0
  {
    if scheduleLength == 0 then 0 else scheduleLength - 1
  }

  /**
   * What the `try` block meets on each attempt. The URL is resolved inside the
   * `try` (line 139), so when it is missing every attempt raises the
   * configuration `TypeError` before any POST and the network is not consulted.
   */
  function Events(urlFound: bool, net: seq<Outcome>, n: nat): (evs: seq<Outcome>)
    requires n <= |net|
    ensures |evs| == n
  {
    if urlFound then net[..n] else seq(n, _ => Raised(RequiredMessage("url")))
  }

  /** The state the loop carries: `sending_metadata`, `self.error`, and what the environment saw. */
  datatype Progress = Progress(
    attempt: Option<nat>,      // sending_metadata['attempt']
    statusCode: Option<int>,   // sending_metadata['status_code']
    response: Option<string>,  // sending_metadata['response']
    error: Option<string>,     // self.error
    success: bool,             // sending_metadata['success']
    posts: nat,                // calls of requests.post
    sleeps: seq<nat>           // arguments of sleep, in order
  )

  const Start := Progress(None, None, None, None, false, 0, [])

  /** One pass of the loop body for 1-based attempt `a`, up to but excluding the sleep. */
  function Attempt(p: Progress, a: nat, posted: bool, ev: Outcome): (q: Progress)
    requires !p.success
    ensures q.attempt == Some(a)
    ensures q.success <==> IsSuccess(ev)
    ensures q.sleeps == p.sleeps
  {
    var p1 := p.(attempt := Some(a), posts := p.posts + (if posted then 1 else 0));
    match ev
    case Response(status, _, content) =>
      if IsSuccess(ev) then p1.(statusCode := Some(status), response := Some(content), success := true)
      else p1.(statusCode := Some(status), error := Some(FailureMessage(ev)))
    case Raised(message) =>
      p1.(response := Some(FailureBody(ReplaceQuotes(message))), error := Some(FailureMessage(ev)))
  }

  /** The loop from index `i` (attempts `i + 1` onwards) over the events `evs`. */
  function Run(evs: seq<Outcome>, posted: bool, i: nat, p: Progress): (r: Progress)
    requires i <= |evs|
    requires !p.success
    ensures |r.sleeps| >= |p.sleeps|
    ensures r.posts <= p.posts + |evs| - i
    decreases |evs| - i
  {
    if i == |evs| then p
    else
      var q := Attempt(p, i + 1, posted, evs[i]);
      if q.success || i + 1 == |evs| then q
      else Run(evs, posted, i + 1, q.(sleeps := q.sleeps + [i]))
  }

  /** The whole loop: `len(attempts) - 1` attempts against the network `net`. */
  function Deliver(scheduleLength: nat, urlFound: bool, net: seq<Outcome>): (r: Progress)
    requires AttemptCount(scheduleLength) <= |net|
    ensures r == Expected(Events(urlFound, net, AttemptCount(scheduleLength)), urlFound)
    ensures r.posts <= AttemptCount(scheduleLength)
    ensures !urlFound ==> r.posts == 0 && !r.success
    ensures AttemptCount(scheduleLength) == 0 ==> r == Start
  {
    var evs := Events(urlFound, net, AttemptCount(scheduleLength));
    RunIsExpected(evs, urlFound);
    Run(evs, urlFound, 0, Start)
  }

  /**
   * The loop stops at the first 2xx response, reporting its 1-based index;
   * without one, it reports the last attempt.
   */
  lemma StopsAtFirstSuccess(scheduleLength: nat, urlFound: bool, net: seq<Outcome>)
    requires AttemptCount(scheduleLength) <= |net|
    ensures var r := Deliver(scheduleLength, urlFound, net);
      r.success <==> urlFound && exists j :: 0 <= j < AttemptCount(scheduleLength) && IsSuccess(net[j])
    ensures var r := Deliver(scheduleLength, urlFound, net);
      r.success ==>
        && r.attempt.Some? && 1 <= r.attempt.value <= AttemptCount(scheduleLength)
        && IsSuccess(net[r.attempt.value - 1])
        && (forall j :: 0 <= j < r.attempt.value - 1 ==> !IsSuccess(net[j]))
        && r.posts == r.attempt.value
    ensures var r := Deliver(scheduleLength, urlFound, net);
      !r.success && AttemptCount(scheduleLength) >= 1 ==> r.attempt == Some(AttemptCount(scheduleLength))
  {
    var n := AttemptCount(scheduleLength);
    var evs := Events(urlFound, net, n);
    if urlFound {
      assert forall j :: 0 <= j < n ==> evs[j] == net[j];
    } else {
      assert forall j :: 0 <= j < n ==> !IsSuccess(evs[j]);
    }
  }

  /**
   * Exactly one sleep follows each failed attempt except the one that
   * concludes the loop, and the sleep after attempt k lasts k - 1.
   */
  lemma SleepTrace(scheduleLength: nat, urlFound: bool, net: seq<Outcome>)
    requires AttemptCount(scheduleLength) <= |net|
    ensures var r := Deliver(scheduleLength, urlFound, net);
      r.attempt.None? ==> r.sleeps == []
    ensures var r := Deliver(scheduleLength, urlFound, net);
      r.attempt.Some? ==> r.sleeps == Counting(r.attempt.value - 1)
    ensures |Deliver(scheduleLength, urlFound, net).sleeps| + 1 >= AttemptCount(scheduleLength) || Deliver(scheduleLength, urlFound, net).success
  {
    var n := AttemptCount(scheduleLength);
    var evs := Events(urlFound, net, n);
    assert Concluded(evs) <= n;
  }

  /** With every attempt answered by a non-2xx response, no `response` is ever recorded. */
  lemma ResponseAbsentWhenAllRejected(scheduleLength: nat, net: seq<Outcome>)
    requires AttemptCount(scheduleLength) <= |net|
    requires forall j :: 0 <= j < AttemptCount(scheduleLength) ==> net[j].Response? && !IsSuccess(net[j])
    ensures Deliver(scheduleLength, true, net).response == None
    ensures Deliver(scheduleLength, true, net).statusCode.Some? <==> AttemptCount(scheduleLength) >= 1
  {
    var n := AttemptCount(scheduleLength);
    LastResponseOfRejected(net[..n]);
    assert net[..n][..n] == net[..n];
  }

  lemma {:induction false} LastResponseOfRejected(done: seq<Outcome>)
    requires forall j :: 0 <= j < |done| ==> done[j].Response? && !IsSuccess(done[j])
    ensures LastResponse(done) == None
    ensures LastStatus(done).Some? <==> |done| > 0
  {
    if |done| > 0 {
      LastResponseOfRejected(done[..|done| - 1]);
    }
  }

  /**
   * For every history of attempts, a further raised attempt keeps the status
   * code already recorded, while it replaces the error and the response body.
   */
  lemma RaisedKeepsStatus(done: seq<Outcome>, message: string)
    ensures LastStatus(done + [Raised(message)]) == LastStatus(done)
    ensures LastError(done + [Raised(message)]) == Some(ReplaceQuotes(message))
    ensures LastResponse(done + [Raised(message)]) == Some(FailureBody(ReplaceQuotes(message)))
  {
    assert (done + [Raised(message)])[..|done|] == done;
  }

  /**
   * An instance of the above on a whole run: a rejected response then a raise
   * keeps the rejected response's status code.
   */
  lemma StatusCodeIsSticky(net: seq<Outcome>, message: string)
    requires |net| >= 2
    requires net[0].Response? && !IsSuccess(net[0])
    requires net[1] == Raised(message)
    ensures Deliver(3, true, net).statusCode == Some(net[0].status)
    ensures Deliver(3, true, net).error == Some(ReplaceQuotes(message))
    ensures Deliver(3, true, net).response == Some(FailureBody(ReplaceQuotes(message)))
    ensures Deliver(3, true, net).sleeps == [0]
  {
    var evs := net[..2];
    assert Deliver(3, true, net) == Expected(evs, true);
    assert !IsSuccess(evs[0]) && !IsSuccess(evs[1]);
    assert Concluded(evs) == 2;
    assert evs[..2] == evs;
    assert evs[..1] == [net[0]];
    assert LastStatus(evs[..1]) == Some(net[0].status);
    assert LastStatus(evs) == LastStatus(evs[..1]);
  }

  // ---------------------------------------------------------------------------
  // Reference description of the loop's result, independent of the loop

  /** The index of the first successful event, if any. */
  function FirstSuccess(evs: seq<Outcome>): (r: Option<nat>)
    ensures r.Some? ==> r.value < |evs| && IsSuccess(evs[r.value])
    ensures r.Some? ==> forall j :: 0 <= j < r.value ==> !IsSuccess(evs[j])
    ensures r.None? ==> forall j :: 0 <= j < |evs| ==> !IsSuccess(evs[j])
  {
    if |evs| == 0 then None
    else if IsSuccess(evs[0]) then Some(0)
    else match FirstSuccess(evs[1..])
      case None => None
      case Some(j) => Some(j + 1)
  }

  /** How many attempts the loop performs: up to and including the first success, else all. */
  function Concluded(evs: seq<Outcome>): (m: nat)
    ensures m <= |evs|
  {
    match FirstSuccess(evs)
    case Some(j) => j + 1
    case None => |evs|
  }

  /** The status of the last response among `done`, whatever its class. */
  function LastStatus(done: seq<Outcome>): Option<int> {
    if |done| == 0 then None
    else match done[|done| - 1]
      case Response(status, _, _) => Some(status)
      case Raised(_) => LastStatus(done[..|done| - 1])
  }

  /** The message of the last failed event among `done`. */
  function LastError(done: seq<Outcome>): Option<string> {
    if |done| == 0 then None
    else if !IsSuccess(done[|done| - 1]) then Some(FailureMessage(done[|done| - 1]))
    else LastError(done[..|done| - 1])
  }

  /** The body of the last success or exception among `done`; failed responses leave none. */
  function LastResponse(done: seq<Outcome>): Option<string> {
    if |done| == 0 then None
    else match done[|done| - 1]
      case Response(status, _, content) =>
        if IsSuccess(done[|done| - 1]) then Some(content) else LastResponse(done[..|done| - 1])
      case Raised(message) => Some(FailureBody(ReplaceQuotes(message)))
  }

  /** The sleep trace 0, 1, ..., k - 1. */
  function Counting(k: nat): (s: seq<nat>)
    ensures |s| == k
    ensures forall j :: 0 <= j < k ==> s[j] == j
  {
    seq(k, j => j)
  }

  /** The loop's result, described by what it saw rather than by how it steps. */
  function Expected(evs: seq<Outcome>, posted: bool): Progress {
    var m := Concluded(evs);
    var done := evs[..m];
    Progress(
      attempt := if m == 0 then None else Some(m),
      statusCode := LastStatus(done),
      response := LastResponse(done),
      error := LastError(done),
      success := FirstSuccess(evs).Some?,
      posts := if posted then m else 0,
      sleeps := Counting(if m == 0 then 0 else m - 1))
  }

  /** The loop state at the head of iteration `i` when the first `i` attempts all failed. */
  function Snapshot(evs: seq<Outcome>, posted: bool, i: nat): Progress
    requires i <= |evs|
  {
    var done := evs[..i];
    Progress(
      attempt := if i == 0 then None else Some(i),
      statusCode := LastStatus(done),
      response := LastResponse(done),
      error := LastError(done),
      success := false,
      posts := if posted then i else 0,
      sleeps := Counting(i))
  }

  /** One attempt from a snapshot: the recorded fields are those of the one-longer prefix. */
  lemma AttemptExtendsSnapshot(evs: seq<Outcome>, posted: bool, i: nat)
    requires i < |evs|
    ensures var q := Attempt(Snapshot(evs, posted, i), i + 1, posted, evs[i]);
      var s := Snapshot(evs, posted, i + 1);
      && q.attempt == s.attempt && q.statusCode == s.statusCode && q.response == s.response
      && q.error == s.error && q.posts == s.posts && q.sleeps == Counting(i)
  {
    var done := evs[..i + 1];
    assert done[..i] == evs[..i];
    assert done[|done| - 1] == evs[i];
  }

  /** A successful attempt from a snapshot concludes the loop as described. */
  lemma SuccessConcludes(evs: seq<Outcome>, posted: bool, i: nat)
    requires i < |evs|
    requires forall j :: 0 <= j < i ==> !IsSuccess(evs[j])
    requires IsSuccess(evs[i])
    ensures Attempt(Snapshot(evs, posted, i), i + 1, posted, evs[i]) == Expected(evs, posted)
  {
    assert FirstSuccess(evs) == Some(i);
    AttemptExtendsSnapshot(evs, posted, i);
  }

  /** A failed final attempt from a snapshot concludes the loop as described. */
  lemma ExhaustionConcludes(evs: seq<Outcome>, posted: bool, i: nat)
    requires i + 1 == |evs|
    requires forall j :: 0 <= j < i ==> !IsSuccess(evs[j])
    requires !IsSuccess(evs[i])
    ensures Attempt(Snapshot(evs, posted, i), i + 1, posted, evs[i]) == Expected(evs, posted)
  {
    assert FirstSuccess(evs).None?;
    assert evs[..i + 1] == evs;
    AttemptExtendsSnapshot(evs, posted, i);
  }

  /** A failed attempt that is not the last, followed by its sleep, reaches the next snapshot. */
  lemma RetryReachesSnapshot(evs: seq<Outcome>, posted: bool, i: nat)
    requires i + 1 < |evs|
    requires !IsSuccess(evs[i])
    ensures var q := Attempt(Snapshot(evs, posted, i), i + 1, posted, evs[i]);
      q.(sleeps := q.sleeps + [i]) == Snapshot(evs, posted, i + 1)
  {
    AttemptExtendsSnapshot(evs, posted, i);
    assert Counting(i) + [i] == Counting(i + 1);
  }

  lemma {:induction false} RunFromSnapshot(evs: seq<Outcome>, posted: bool, i: nat)
    requires i < |evs| || i == 0
    requires i <= |evs|
    requires forall j :: 0 <= j < i ==> !IsSuccess(evs[j])
    ensures Run(evs, posted, i, Snapshot(evs, posted, i)) == Expected(evs, posted)
    decreases |evs| - i
  {
    if i == |evs| {
      assert evs[..0] == evs;
    } else if IsSuccess(evs[i]) {
      SuccessConcludes(evs, posted, i);
    } else if i + 1 == |evs| {
      ExhaustionConcludes(evs, posted, i);
    } else {
      RetryReachesSnapshot(evs, posted, i);
      RunFromSnapshot(evs, posted, i + 1);
    }
  }

  /** The loop computes exactly the reference description. */
  lemma RunIsExpected(evs: seq<Outcome>, posted: bool)
    ensures Run(evs, posted, 0, Start) == Expected(evs, posted)
  {
    assert Snapshot(evs, posted, 0) == Start;
    RunFromSnapshot(evs, posted, 0);
  }
}
