/** What the canary's answers mean (live_provider.py:63-85, 209-405): which responses are refused and why, what a reply
    leads to, what the estimated cost and the pauses are, and how often the provider can be called. */
module CanaryMeaning {
  import opened Wrappers
  import Evidence
  import opened ProviderCanary

  // ---------------------------------------------------------------- responses

  /** Absent, or 1 to 256 characters without surrounding blanks and without control characters. */
  predicate Labelled(value: Option<string>) {
    value.Some? ==>
      && value.value != "" && |value.value| <= 256 && Evidence.Trimmed(value.value)
      && forall c | c in value.value :: c >= ' ' && c != '\U{007F}'
  }

  /** What each refusal of a response complains of. */
  predicate Faulty(reason: Reason, r: Response, limits: Limits) {
    match reason
    case InvalidStatus => r.statusCode < 100 || r.statusCode > 599
    case InvalidRequestId => !Labelled(r.requestId)
    case InvalidModelRevision => !Labelled(r.modelRevision)
    case InvalidInputTokens => r.inputTokens < 0
    case InvalidOutputTokens => r.outputTokens < 0
    case InputTokensExceeded => r.inputTokens > limits.maxInputTokens
    case OutputTokensExceeded => r.outputTokens > limits.maxOutputTokens
    case InvalidRetryAfter => r.retryAfter.NotFinite? || (r.retryAfter.Finite? && r.retryAfter.seconds < 0.0)
    case _ => false
  }

  /** The order in which the faults are looked for. */
  const FAULTS: seq<Reason> :=
    [InvalidStatus, InvalidRequestId, InvalidModelRevision, InvalidInputTokens, InvalidOutputTokens,
     InputTokensExceeded, OutputTokensExceeded, InvalidRetryAfter]

  ghost predicate FirstFault(k: int, r: Response, limits: Limits) {
    0 <= k < |FAULTS| && Faulty(FAULTS[k], r, limits) && forall j | 0 <= j < k :: !Faulty(FAULTS[j], r, limits)
  }

  lemma LabelledIsMetadata(value: Option<string>)
    ensures Metadata(value) <==> Labelled(value)
  {
    if value.Some? {
      var s := value.value;
      assert Metadata(value) ==> forall c | c in s :: c as int >= 32 && c as int != 127;
      assert Labelled(value) ==> forall i | 0 <= i < |s| :: s[i] in s;
    }
  }

  /** A response is refused for the first of its faults, and only for a fault. */
  lemma RefusalMeaning(r: Response, limits: Limits)
    ensures ValidateResponse(r, limits).None? <==> forall reason :: !Faulty(reason, r, limits)
    ensures ValidateResponse(r, limits).Some? ==>
              exists k :: FirstFault(k, r, limits) && ValidateResponse(r, limits).value == FAULTS[k]
  {
    LabelledIsMetadata(r.requestId);
    LabelledIsMetadata(r.modelRevision);
    var refused := ValidateResponse(r, limits);
    if refused.Some? {
      var k := match refused.value
        case InvalidStatus => 0
        case InvalidRequestId => 1
        case InvalidModelRevision => 2
        case InvalidInputTokens => 3
        case InvalidOutputTokens => 4
        case InputTokensExceeded => 5
        case OutputTokensExceeded => 6
        case _ => 7;
      assert FAULTS[k] == refused.value && FirstFault(k, r, limits);
      assert Faulty(FAULTS[k], r, limits);
    }
  }

  // ---------------------------------------------------------------- replies

  /** An answer without a fault, of one of these statuses. */
  ghost predicate Sound(reply: Reply, limits: Limits) {
    reply.Answered? && forall reason :: !Faulty(reason, reply.response, limits)
  }

  predicate Overloaded(status: int) {
    status == 429 || status == 500 || status == 502 || status == 503 || status == 504
  }

  /** Where the text holds the part. */
  ghost predicate Holds(text: string, part: string) {
    exists before, after :: text == before + part + after
  }

  lemma HoldsIsContains(text: string, part: string)
    ensures Contains(text, part) <==> Holds(text, part)
  {
    if Contains(text, part) {
      var i :| 0 <= i <= |text| - |part| && OccursAt(text, part, i);
      assert text == text[..i] + part + text[i + |part|..];
    }
    if before, after :| text == before + part + after {
      assert OccursAt(text, part, |before|);
    }
  }

  /** What a reply leads to, by its own content. */
  lemma ReplyMeaning(reply: Reply, limits: Limits, expected: string)
    requires !reply.Raised?
    ensures Retryable(reply, limits) <==>
              reply.TimedOut? || (Sound(reply, limits) && Overloaded(reply.response.statusCode))
    ensures Decisive(reply, limits) <==>
              && Sound(reply, limits) && 200 <= reply.response.statusCode <= 299 && reply.response.output.Some?
    ensures match ReplyReason(reply, limits, expected)
            case RequestTimedOut => reply.TimedOut?
            case InvalidResponse => reply.Foreign?
            case RetriesExhausted => Sound(reply, limits) && Overloaded(reply.response.statusCode)
            case NonRetryable =>
              && Sound(reply, limits) && !Overloaded(reply.response.statusCode)
              && !(200 <= reply.response.statusCode <= 299)
            case NoTextOutput =>
              Sound(reply, limits) && 200 <= reply.response.statusCode <= 299 && reply.response.output.None?
            case AssertionSatisfied => Decisive(reply, limits) && Holds(reply.response.output.value, expected)
            case AssertionViolated => Decisive(reply, limits) && !Holds(reply.response.output.value, expected)
            case other => reply.Answered? && exists k :: FirstFault(k, reply.response, limits) && FAULTS[k] == other
  {
    if reply.Answered? {
      var r := reply.response;
      RefusalMeaning(r, limits);
      if r.output.Some? {
        HoldsIsContains(r.output.value, expected);
      }
    }
  }

  /** The pause after a reply is the minimum interval, or what the response asks for when that is longer. */
  lemma DelayMeaning(reply: Reply, interval: real)
    ensures var asked := if reply.Answered? && reply.response.retryAfter.Finite? then reply.response.retryAfter.seconds
                         else interval;
            && Delay(reply, interval) >= interval && Delay(reply, interval) >= asked
            && (Delay(reply, interval) == interval || Delay(reply, interval) == asked)
  {
  }

  // ---------------------------------------------------------------- money and time

  /** A million times the cost is the tokens at their rates, and a minute is the allowed requests at their interval. */
  lemma RatesMeaning(limits: Limits, inputTokens: int, outputTokens: int)
    requires limits.maxRequestsPerMinute > 0
    ensures limits.Cost(inputTokens, outputTokens) * 1_000_000.0
         == inputTokens as real * limits.inputUsdPerMillion + outputTokens as real * limits.outputUsdPerMillion
    ensures limits.MinRequestInterval() * limits.maxRequestsPerMinute as real == 60.0
  {
  }

  function Slept(trace: seq<Action>): real {
    if trace == [] then 0.0
    else
      var last := trace[|trace| - 1];
      Slept(trace[..|trace| - 1]) + if last.Sleep? then last.seconds else 0.0
  }
  lemma SleptSnoc(trace: seq<Action>, j: nat)
    requires j < |trace|
    ensures Slept(trace[..j + 1]) == Slept(trace[..j]) + if trace[j].Sleep? then trace[j].seconds else 0.0
    ensures Calls(trace[..j + 1]) == Calls(trace[..j]) + if trace[j].Call? then 1 else 0
  {
    assert trace[..j + 1][..j] == trace[..j];
  }

  /** Sleeping takes no negative time, and a stretch without calls adds none. */
  lemma {:induction false} Quiet(trace: seq<Action>, limits: Limits, p: Pace, i: nat, j: nat)
    requires Paced(trace, limits, p) && p.interval >= 0.0 && i <= j <= |trace|
    requires forall m | i <= m < j :: !trace[m].Call?
    ensures Slept(trace[..i]) <= Slept(trace[..j]) && Calls(trace[..i]) == Calls(trace[..j])
    decreases j
  {
    if i < j {
      Quiet(trace, limits, p, i, j - 1);
      SleptSnoc(trace, j - 1);
      PacedAction(trace, limits, p, j - 1);
    }
  }

  /** From a call to the one after its pause. */
  lemma OnePause(trace: seq<Action>, limits: Limits, p: Pace, i: nat, j: nat)
    requires Paced(trace, limits, p) && p.interval >= 0.0 && i + 2 < j <= |trace| && trace[i].Call?
    requires trace[i + 1].Read? && trace[i + 2].Sleep? && trace[i + 2].seconds >= p.interval
    requires forall m | i + 2 < m < j :: !trace[m].Call?
    ensures Slept(trace[..j]) - Slept(trace[..i]) >= p.interval && Calls(trace[..j]) == Calls(trace[..i]) + 1
  {
    SleptSnoc(trace, i);
    SleptSnoc(trace, i + 1);
    SleptSnoc(trace, i + 2);
    Quiet(trace, limits, p, i + 3, j);
  }

  /** n intervals. */
  function Times(n: nat, interval: real): real {
    if n == 0 then 0.0 else Times(n - 1, interval) + interval
  }

  lemma {:induction false} TimesIsProduct(n: nat, interval: real)
    ensures Times(n, interval) == n as real * interval
  {
    if n > 0 {
      TimesIsProduct(n - 1, interval);
      Distribute((n - 1) as real, 1.0, interval);
      assert n as real == (n - 1) as real + 1.0;
    }
  }

  /** Before a call that is not the first there is a call, and the pause between them. */
  lemma PausedCall(trace: seq<Action>, limits: Limits, p: Pace, i: nat, j: nat) returns (h: nat)
    requires Paced(trace, limits, p) && p.interval >= 0.0 && i < j < |trace| && trace[i].Call? && trace[j].Call?
    ensures i <= h < j && trace[h].Call?
    ensures Slept(trace[..j]) - Slept(trace[..h]) >= p.interval && Calls(trace[..j]) == Calls(trace[..h]) + 1
  {
    PacedAction(trace, limits, p, j);
    var k := RestedSleeps(trace[..j], p.interval, i);
    PacedAction(trace, limits, p, k);
    h := k - 2;
    assert trace[..k][h] == trace[h] && trace[..k][h + 1] == trace[h + 1];
    forall m | k < m < j ensures !trace[m].Call? {
      assert trace[..j][m] == trace[m];
    }
    OnePause(trace, limits, p, h, j);
  }

  /** Between two calls the run sleeps at least the minimum interval for each call made. */
  lemma {:induction false} PausesAdd(trace: seq<Action>, limits: Limits, p: Pace, i: nat, j: nat)
    requires Paced(trace, limits, p) && p.interval >= 0.0 && i < j < |trace| && trace[i].Call? && trace[j].Call?
    ensures Calls(trace[..i]) < Calls(trace[..j])
    ensures Slept(trace[..j]) - Slept(trace[..i]) >= Times(Calls(trace[..j]) - Calls(trace[..i]), p.interval)
    decreases j
  {
    var h := PausedCall(trace, limits, p, i, j);
    if h != i {
      PausesAdd(trace, limits, p, i, h);
    }
  }

  /** However the provider behaves, a run that makes as many further calls as are allowed in a minute sleeps for at
      least a minute in between. */
  lemma RateIsBounded(trace: seq<Action>, limits: Limits, p: Pace, i: nat, j: nat)
    requires limits.maxRequestsPerMinute > 0 && p.interval == limits.MinRequestInterval()
    requires Paced(trace, limits, p) && i < j < |trace| && trace[i].Call? && trace[j].Call?
    requires Calls(trace[..j]) - Calls(trace[..i]) == limits.maxRequestsPerMinute
    ensures Slept(trace[..j]) - Slept(trace[..i]) >= 60.0
  {
    RatesMeaning(limits, 0, 0);
    PausesAdd(trace, limits, p, i, j);
    TimesIsProduct(limits.maxRequestsPerMinute, p.interval);
  }
}
