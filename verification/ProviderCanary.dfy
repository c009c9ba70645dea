/** The bounded live-provider canary (live_provider.py:35-85, 176-405). Money and time are exact reals; the
    clock, the transport and sleeping are an arbitrary world whose history is recorded. */
module ProviderCanary {
  import opened Wrappers
  import Evidence

  datatype Limits = Limits(
    maxAttempts: int, requestTimeoutSeconds: real, wallClockSeconds: real, maxRequestsPerMinute: int,
    maxInputTokens: int, maxOutputTokens: int, inputUsdPerMillion: real, outputUsdPerMillion: real,
        maxEstimatedCostUsd: real)
  {
    function Cost(inputTokens: int, outputTokens: int): real {
      (inputTokens as real * inputUsdPerMillion + outputTokens as real * outputUsdPerMillion) / 1_000_000.0
    }

    function WorstCaseAttemptCost(): real {
      Cost(maxInputTokens, maxOutputTokens)
    }

    function WorstCaseCost(): real {
      maxAttempts as real * WorstCaseAttemptCost()
    }

    function MinRequestInterval(): real
      requires maxRequestsPerMinute > 0
    {
      60.0 / maxRequestsPerMinute as real
    }

    /** __post_init__ */
    predicate Valid() {
      && 1 <= maxAttempts <= 5 && 1 <= maxRequestsPerMinute <= 60 && maxInputTokens > 0 && maxOutputTokens > 0
      && requestTimeoutSeconds >= 0.0 && wallClockSeconds >= 0.0 && inputUsdPerMillion >= 0.0
         && outputUsdPerMillion >= 0.0
      && maxEstimatedCostUsd >= 0.0
      && requestTimeoutSeconds > 0.0 && wallClockSeconds > 0.0 && requestTimeoutSeconds <= wallClockSeconds
      && WorstCaseCost() <= maxEstimatedCostUsd
    }
  }

  datatype RetryAfter = Absent | Finite(seconds: real) | NotFinite

  datatype Response = Response(
    statusCode: int, output: Option<string>, requestId: Option<string>, modelRevision: Option<string>,
    inputTokens: int, outputTokens: int, retryAfter: RetryAfter)

  /** What a transport call can do: time out, raise something else, or return a response or some other value. */
  datatype Reply = TimedOut | Raised | Foreign | Answered(response: Response)

  datatype Disposition = Observed | SubjectFailure | ProviderUncertain

  datatype Reason =
    | WallClockReached | RequestTimedOut | WallClockReachedDuringRetry
    | InvalidResponse | InvalidStatus | InvalidRequestId | InvalidModelRevision | InvalidInputTokens
    | InvalidOutputTokens | InputTokensExceeded | OutputTokensExceeded | InvalidRetryAfter
    | RetriesExhausted | NonRetryable | NoTextOutput | AssertionViolated | AssertionSatisfied

  datatype Observation = Observation(
    disposition: Disposition, attempts: nat, requestId: Option<string>, modelRevision: Option<string>,
    inputTokens: int, outputTokens: int, estimatedCostUsd: real, reason: Reason)

  const RETRYABLE_STATUS: set<int> := {429, 500, 502, 503, 504}

  // ---------------------------------------------------------------- the world

  datatype Action = Read(time: real) | Call(timeout: real, reply: Reply) | Sleep(seconds: real)

  class World {
    var now: real
    /** Everything done so far, in order. */
    ghost var trace: seq<Action>

    method Clock() returns (time: real)
      modifies this
      ensures trace == old(trace) + [Read(time)]
    {
      Pass();
      time := now;
      trace := trace + [Read(time)];
    }

    method Transport(timeout: real) returns (reply: Reply)
      modifies this
      ensures trace == old(trace) + [Call(timeout, reply)]
    {
      Pass();
      reply := *;
      trace := trace + [Call(timeout, reply)];
    }

    method Sleep(seconds: real)
      modifies this
      ensures trace == old(trace) + [Action.Sleep(seconds)]
    {
      Pass();
      trace := trace + [Action.Sleep(seconds)];
    }

    /** Some time passes. */
    method Pass()
      modifies this`now
      ensures now >= old(now)
    {
      var later: real := *;
      now := if later >= now then later else now;
    }
  }

  // ---------------------------------------------------------------- responses

  predicate Metadata(value: Option<string>) {
    value.None? ||
    var s := value.value;
    1 <= |s| <= 256 && Evidence.Trimmed(s) && forall i | 0 <= i < |s| :: s[i] as int >= 32 && s[i] as int != 127
  }

  /** _validate_response: the first reason to refuse a response. */
  function ValidateResponse(r: Response, limits: Limits): Option<Reason> {
    if !(100 <= r.statusCode <= 599) then Some(InvalidStatus)
    else if !Metadata(r.requestId) then Some(InvalidRequestId)
    else if !Metadata(r.modelRevision) then Some(InvalidModelRevision)
    else if r.inputTokens < 0 then Some(InvalidInputTokens)
    else if r.outputTokens < 0 then Some(InvalidOutputTokens)
    else if r.inputTokens > limits.maxInputTokens then Some(InputTokensExceeded)
    else if r.outputTokens > limits.maxOutputTokens then Some(OutputTokensExceeded)
    else if r.retryAfter.NotFinite? || (r.retryAfter.Finite? && r.retryAfter.seconds < 0.0) then Some(InvalidRetryAfter)
    else None
  }

  predicate ValidReply(reply: Reply, limits: Limits) {
    reply.Answered? && ValidateResponse(reply.response, limits).None?
  }

  predicate OccursAt(text: string, part: string, i: int) {
    0 <= i <= |text| - |part| && text[i..i + |part|] == part
  }

  predicate Contains(text: string, part: string) {
    exists i | 0 <= i <= |text| - |part| :: OccursAt(text, part, i)
  }

  /** A valid response with a success status and a text, on which the assertion is decided. */
  predicate Decisive(reply: Reply, limits: Limits) {
    ValidReply(reply, limits) && 200 <= reply.response.statusCode < 300 && reply.response.output.Some?
  }

  /** A reply after which the call may be made again. */
  predicate Retryable(reply: Reply, limits: Limits) {
    reply.TimedOut? || (ValidReply(reply, limits) && reply.response.statusCode in RETRYABLE_STATUS)
  }

  function Max(a: real, b: real): real { if a < b then b else a }

  /** The pause owed after a reply: the minimum interval, or longer when the response asks for it. */
  function Delay(reply: Reply, interval: real): real {
    if reply.Answered? && reply.response.retryAfter.Finite? then Max(interval, reply.response.retryAfter.seconds)
        else interval
  }

  /** What a run that ends on this reply reports. */
  function ReplyReason(reply: Reply, limits: Limits, expected: string): Reason
    requires !reply.Raised?
  {
    match reply
    case TimedOut => RequestTimedOut
    case Foreign => InvalidResponse
    case Answered(r) =>
      var invalid := ValidateResponse(r, limits);
      if invalid.Some? then invalid.value
      else if Retryable(reply, limits) then RetriesExhausted
      else if !(200 <= r.statusCode < 300) then NonRetryable
      else if r.output.None? then NoTextOutput
      else if Contains(r.output.value, expected) then AssertionSatisfied
      else AssertionViolated
  }

  // ---------------------------------------------------------------- what a history says

  function Calls(trace: seq<Action>): nat {
    if trace == [] then 0 else Calls(trace[..|trace| - 1]) + if trace[|trace| - 1].Call? then 1 else 0
  }

  function InputTokens(trace: seq<Action>, limits: Limits): int {
    if trace == [] then 0
    else
      var last := trace[|trace| - 1];
      InputTokens(trace[..|trace| - 1], limits) + if last.Call? && ValidReply(last.reply, limits)
          then last.reply.response.inputTokens else 0
  }

  function OutputTokens(trace: seq<Action>, limits: Limits): int {
    if trace == [] then 0
    else
      var last := trace[|trace| - 1];
      OutputTokens(trace[..|trace| - 1], limits) + if last.Call? && ValidReply(last.reply, limits)
          then last.reply.response.outputTokens else 0
  }

  /** The last response of a history that passed validation. */
  function LastValid(trace: seq<Action>, limits: Limits): Option<Response> {
    if trace == [] then None
    else
      var last := trace[|trace| - 1];
      if last.Call? && ValidReply(last.reply, limits) then Some(last.reply.response)
          else LastValid(trace[..|trace| - 1], limits)
  }

  /** No transport call since the last sufficient sleep. */
  predicate Rested(trace: seq<Action>, interval: real) {
    trace == [] ||
    var last := trace[|trace| - 1];
    !last.Call? && ((last.Sleep? && last.seconds >= interval) || Rested(trace[..|trace| - 1], interval))
  }

  /** When the run started, the minimum interval between calls, and the time from which no call may start. */
  datatype Pace = Pace(started: real, interval: real, deadline: real)

  /** A call may be made: enough sleep since the last one, and a clock reading below the deadline. */
  predicate Ready(trace: seq<Action>, p: Pace) {
    Rested(trace, p.interval) && trace != [] && trace[|trace| - 1].Read? && trace[|trace| - 1].time < p.deadline
  }

  /** A pause of this length is owed: the history ends with a retryable call and a clock reading, attempts are left,
      and the pause ends below the deadline. */
  predicate Owed(trace: seq<Action>, seconds: real, limits: Limits, p: Pace) {
    var n := |trace|;
    && n >= 2 && trace[n - 1].Read? && trace[n - 2].Call?
    && Retryable(trace[n - 2].reply, limits) && Calls(trace) < limits.maxAttempts
    && seconds == Delay(trace[n - 2].reply, p.interval) && trace[n - 1].time + seconds < p.deadline
  }

  /** Each call was made when it might be, with the request timeout, and each pause was owed. */
  predicate Paced(trace: seq<Action>, limits: Limits, p: Pace) {
    trace == [] ||
    var front, last := trace[..|trace| - 1], trace[|trace| - 1];
    && Paced(front, limits, p)
    && (last.Call? ==> Ready(front, p) && last.timeout == limits.requestTimeoutSeconds)
    && (last.Sleep? ==> Owed(front, last.seconds, limits, p))
  }

  lemma {:induction false} RestedSleeps(trace: seq<Action>, interval: real, i: nat) returns (k: nat)
    requires Rested(trace, interval) && i < |trace| && trace[i].Call?
    ensures i < k < |trace| && trace[k].Sleep? && trace[k].seconds >= interval
    ensures forall m | k < m < |trace| :: !trace[m].Call?
  {
    var n := |trace| - 1;
    if trace[n].Sleep? && trace[n].seconds >= interval {
      k := n;
    } else {
      k := RestedSleeps(trace[..n], interval, i);
    }
  }

  /** What a paced history says of any one of its actions. */
  lemma {:induction false} PacedAction(trace: seq<Action>, limits: Limits, p: Pace, j: nat)
    requires Paced(trace, limits, p) && j < |trace|
    ensures Paced(trace[..j], limits, p)
    ensures trace[j].Call? ==> Ready(trace[..j], p) && trace[j].timeout == limits.requestTimeoutSeconds
    ensures trace[j].Sleep? ==> Owed(trace[..j], trace[j].seconds, limits, p)
  {
    var n := |trace| - 1;
    if j < n {
      PacedAction(trace[..n], limits, p, j);
      assert trace[..n][..j] == trace[..j];
    }
  }

  /** Every call has the request timeout and starts after a clock reading below the deadline. */
  lemma CallStartsInTime(trace: seq<Action>, limits: Limits, p: Pace, j: nat)
    requires Paced(trace, limits, p) && j < |trace| && trace[j].Call?
    ensures j > 0 && trace[j - 1].Read? && trace[j - 1].time < p.deadline
    ensures trace[j].timeout == limits.requestTimeoutSeconds
  {
    PacedAction(trace, limits, p, j);
  }

  /** A call with another call after it had a retryable reply, and the run then read the clock and slept for exactly
      the pause owed, which is at least the minimum interval and ends below the deadline. */
  lemma {:induction false} CallsAreSeparated(trace: seq<Action>, limits: Limits, p: Pace, i: nat, j: nat)
    requires Paced(trace, limits, p) && i < j < |trace| && trace[i].Call? && trace[j].Call?
    ensures i + 2 < j && Retryable(trace[i].reply, limits) && trace[i + 1].Read?
    ensures trace[i + 2] == Action.Sleep(Delay(trace[i].reply, p.interval))
        && Delay(trace[i].reply, p.interval) >= p.interval
    ensures trace[i + 1].time + Delay(trace[i].reply, p.interval) < p.deadline
    decreases j
  {
    PacedAction(trace, limits, p, j);
    var k := RestedSleeps(trace[..j], p.interval, i);
    PacedAction(trace, limits, p, k);
    if k - 2 != i {
      CallsAreSeparated(trace, limits, p, i, k - 2);
    }
  }

  // ---------------------------------------------------------------- cost

  lemma NotNegative(x: real, rate: real)
    requires x >= 0.0 && rate >= 0.0
    ensures x * rate >= 0.0
  {
  }

  lemma Distribute(x: real, y: real, rate: real)
    ensures (x + y) * rate == x * rate + y * rate
  {
  }

  lemma Scale(x: real, y: real, rate: real)
    requires 0.0 <= x <= y && rate >= 0.0
    ensures 0.0 <= x * rate <= y * rate
  {
    NotNegative(x, rate);
    NotNegative(y - x, rate);
    Distribute(x, y - x, rate);
    assert x + (y - x) == y;
  }

  lemma AddPerMillion(a: real, b: real, c: real, d: real)
    requires 0.0 <= a <= c && 0.0 <= b <= d
    ensures 0.0 <= (a + b) / 1_000_000.0 <= (c + d) / 1_000_000.0
  {
  }

  lemma CostBound(limits: Limits, inputTokens: int, outputTokens: int)
    requires limits.Valid() && 0 <= inputTokens <= limits.maxInputTokens && 0 <= outputTokens <= limits.maxOutputTokens
    ensures 0.0 <= limits.Cost(inputTokens, outputTokens) <= limits.WorstCaseAttemptCost()
  {
    RatesBound(inputTokens as real, limits.maxInputTokens as real, limits.inputUsdPerMillion,
               outputTokens as real, limits.maxOutputTokens as real, limits.outputUsdPerMillion);
  }

  lemma RatesBound(x: real, maxX: real, p: real, y: real, maxY: real, q: real)
    requires 0.0 <= x <= maxX && 0.0 <= y <= maxY && p >= 0.0 && q >= 0.0
    ensures 0.0 <= (x * p + y * q) / 1_000_000.0 <= (maxX * p + maxY * q) / 1_000_000.0
  {
    Scale(x, maxX, p);
    Scale(y, maxY, q);
    AddPerMillion(x * p, y * q, maxX * p, maxY * q);
  }

  lemma CostAdds(limits: Limits, a: int, b: int, c: int, d: int)
    ensures limits.Cost(a, b) + limits.Cost(c, d) == limits.Cost(a + c, b + d)
  {
    Distribute(a as real, c as real, limits.inputUsdPerMillion);
    Distribute(b as real, d as real, limits.outputUsdPerMillion);
  }

  /** One more attempt costs at most one more worst case. */
  lemma NextBound(cost: real, extra: real, attempts: nat, worst: real)
    requires 0.0 <= cost <= attempts as real * worst && 0.0 <= extra <= worst
    ensures 0.0 <= cost + extra <= (attempts + 1) as real * worst
  {
    Distribute(attempts as real, 1.0, worst);
    assert (attempts + 1) as real == attempts as real + 1.0;
  }

  /** Up to any attempt the worst case is within the ceiling. */
  lemma AttemptsWithinCeiling(limits: Limits, attempts: nat)
    requires limits.Valid() && attempts <= limits.maxAttempts
    ensures attempts as real * limits.WorstCaseAttemptCost() <= limits.maxEstimatedCostUsd
  {
    CostBound(limits, limits.maxInputTokens, limits.maxOutputTokens);
    Scale(attempts as real, limits.maxAttempts as real, limits.WorstCaseAttemptCost());
  }

  // ---------------------------------------------------------------- the canary

  /** What the loop carries from one attempt to the next. */
  datatype Accounts = Accounts(inputTokens: int, outputTokens: int, cost: real, last: Option<Response>)

  /** _uncertain, with the metadata of a response when there is one. */
  function Uncertain(attempts: nat, response: Option<Response>, reason: Reason, a: Accounts): Observation {
    Observation(ProviderUncertain, attempts, if response.None? then None else response.value.requestId,
                if response.None? then None else response.value.modelRevision, a.inputTokens, a.outputTokens, a.cost,
                    reason)
  }

  /** What an observation says about the history that it ends. */
  ghost predicate Accounted(o: Observation, trace: seq<Action>, limits: Limits) {
    && o.attempts == Calls(trace) <= limits.maxAttempts
    && o.inputTokens == InputTokens(trace, limits) && o.outputTokens == OutputTokens(trace, limits)
    && o.estimatedCostUsd == limits.Cost(o.inputTokens, o.outputTokens)
    && 0.0 <= o.estimatedCostUsd <= limits.maxEstimatedCostUsd
  }

  /** The disposition that the last action of a history decides. */
  ghost predicate Decided(o: Observation, trace: seq<Action>, limits: Limits, expected: string) {
    var decisive := trace != [] && trace[|trace| - 1].Call? && Decisive(trace[|trace| - 1].reply, limits);
    && (o.disposition.ProviderUncertain? <==> !decisive)
    && (decisive ==> (o.disposition.Observed? <==> Contains(trace[|trace| - 1].reply.response.output.value, expected)))
  }

  /** The retry was given up for lack of time: before the pause, or on waking from it. */
  ghost predicate LateRetry(trace: seq<Action>, limits: Limits, p: Pace) {
    var n := |trace|;
    && n >= 2 && trace[n - 1].Read?
    && match trace[n - 2]
       case Read(_) => false
       case Sleep(_) => trace[n - 1].time >= p.deadline
       case Call(_, reply) =>
         && Retryable(reply, limits) && Calls(trace) < limits.maxAttempts
         && trace[n - 1].time + Delay(reply, p.interval) >= p.deadline
  }

  /** Why a run ended: the reason is the one its last actions give, and it ended no sooner than it had to. */
  ghost predicate Ended(reason: Reason, trace: seq<Action>, limits: Limits, expected: string, p: Pace) {
    var n := |trace|;
    && n >= 2
    && match trace[n - 1]
       case Sleep(_) => false
       case Call(_, reply) =>
         && !reply.Raised? && reason == ReplyReason(reply, limits, expected)
         && (Retryable(reply, limits) ==> Calls(trace) == limits.maxAttempts)
       case Read(t) =>
         if trace[n - 2].Read? then
           reason == WallClockReached && t >= p.deadline && (n > 2 ==> trace[n - 2].time < p.deadline)
         else reason == WallClockReachedDuringRetry && LateRetry(trace, limits, p)
  }

  /** The metadata are those of the last valid response. */
  ghost predicate Identified(o: Observation, trace: seq<Action>, limits: Limits) {
    var last := LastValid(trace, limits);
    && o.requestId == (if last.None? then None else last.value.requestId)
    && o.modelRevision == (if last.None? then None else last.value.modelRevision)
  }

  /** How one more action changes what a history says. */
  lemma Append(trace: seq<Action>, a: Action, limits: Limits, p: Pace)
    ensures var longer := trace + [a];
            && Calls(longer) == Calls(trace) + (if a.Call? then 1 else 0)
            && InputTokens(longer, limits)
                 == InputTokens(trace, limits) + (if a.Call? && ValidReply(a.reply, limits)
                     then a.reply.response.inputTokens else 0)
            && OutputTokens(longer, limits)
                 == OutputTokens(trace, limits)
                     + (if a.Call? && ValidReply(a.reply, limits) then a.reply.response.outputTokens else 0)
            && LastValid(longer, limits)
                 == (if a.Call? && ValidReply(a.reply, limits) then Some(a.reply.response)
                     else LastValid(trace, limits))
    ensures a.Read? && Paced(trace, limits, p) ==> Paced(trace + [a], limits, p)
    ensures a.Sleep? && Paced(trace, limits, p) && Owed(trace, a.seconds, limits, p) ==> Paced(trace + [a], limits, p)
    ensures !a.Call? && Rested(trace, p.interval) ==> Rested(trace + [a], p.interval)
    ensures a.Sleep? && a.seconds >= p.interval ==> Rested(trace + [a], p.interval)
    ensures a.Call? && a.timeout == limits.requestTimeoutSeconds && Paced(trace, limits, p) && Ready(trace, p) ==>
              Paced(trace + [a], limits, p)
  {
    assert (trace + [a])[..|trace|] == trace;
  }

  /** The accounts after a number of attempts. */
  ghost predicate Running(trace: seq<Action>, attempts: nat, a: Accounts, limits: Limits, p: Pace) {
    && Calls(trace) == attempts && Paced(trace, limits, p) && a.last == LastValid(trace, limits)
    && a.inputTokens == InputTokens(trace, limits) && a.outputTokens == OutputTokens(trace, limits)
    && a.cost == limits.Cost(a.inputTokens, a.outputTokens)
    && 0.0 <= a.cost <= attempts as real * limits.WorstCaseAttemptCost()
  }

  lemma RunningIsAccounted(o: Observation, trace: seq<Action>, attempts: nat, a: Accounts, limits: Limits, p: Pace)
    requires limits.Valid() && attempts <= limits.maxAttempts && Running(trace, attempts, a, limits, p)
    requires o.attempts == attempts && o.inputTokens == a.inputTokens && o.outputTokens == a.outputTokens
        && o.estimatedCostUsd == a.cost
    requires o.requestId == (if a.last.None? then None else a.last.value.requestId)
    requires o.modelRevision == (if a.last.None? then None else a.last.value.modelRevision)
    ensures Accounted(o, trace, limits) && Identified(o, trace, limits)
  {
    AttemptsWithinCeiling(limits, attempts);
  }

  /** The accounts with the usage of a valid response. */
  function Charged(a: Accounts, r: Response, limits: Limits): Accounts {
    Accounts(a.inputTokens + r.inputTokens, a.outputTokens + r.outputTokens,
        a.cost + limits.Cost(r.inputTokens, r.outputTokens), Some(r))
  }

  lemma AfterCall(trace: seq<Action>, reply: Reply, attempts: nat, a: Accounts, limits: Limits, p: Pace)
    requires limits.Valid() && Running(trace, attempts, a, limits, p) && Ready(trace, p)
    ensures !ValidReply(reply, limits) ==>
              Running(trace + [Call(limits.requestTimeoutSeconds, reply)], attempts + 1, a, limits, p)
    ensures ValidReply(reply, limits) ==>
              Running(trace + [Call(limits.requestTimeoutSeconds, reply)], attempts + 1,
                      Charged(a, reply.response, limits), limits, p)
  {
    Append(trace, Call(limits.requestTimeoutSeconds, reply), limits, p);
    CostBound(limits, limits.maxInputTokens, limits.maxOutputTokens);
    NextBound(a.cost, 0.0, attempts, limits.WorstCaseAttemptCost());
    if ValidReply(reply, limits) {
      var r := reply.response;
      CostBound(limits, r.inputTokens, r.outputTokens);
      NextBound(a.cost, limits.Cost(r.inputTokens, r.outputTokens), attempts, limits.WorstCaseAttemptCost());
      CostAdds(limits, a.inputTokens, a.outputTokens, r.inputTokens, r.outputTokens);
    }
  }

  lemma AfterQuiet(trace: seq<Action>, action: Action, attempts: nat, a: Accounts, limits: Limits, p: Pace)
    requires Running(trace, attempts, a, limits, p) && !action.Call?
    requires action.Sleep? ==> Owed(trace, action.seconds, limits, p)
    ensures Running(trace + [action], attempts, a, limits, p)
    ensures Rested(trace, p.interval) ==> Rested(trace + [action], p.interval)
    ensures action.Sleep? && action.seconds >= p.interval ==> Rested(trace + [action], p.interval)
  {
    Append(trace, action, limits, p);
  }

  /** What one attempt leads to. */
  datatype Outcome = Finish(observation: Observation) | Retry(accounts: Accounts) | Abort

  /** Ready for the next attempt: rested, and the clock was read last, in time unless this is the start. */
  ghost predicate Waiting(trace: seq<Action>, p: Pace) {
    && Rested(trace, p.interval) && trace != [] && trace[|trace| - 1].Read?
    && (|trace| > 1 ==> trace[|trace| - 1].time < p.deadline)
  }

  /** The last action was a call that raised. */
  predicate EndsRaised(trace: seq<Action>) {
    trace != [] && trace[|trace| - 1].Call? && trace[|trace| - 1].reply.Raised?
  }

  /** What holds after attempt number `attempt`. */
  ghost predicate Leads(o: Outcome, trace: seq<Action>, attempt: nat, limits: Limits, expected: string, p: Pace) {
    && trace != [] && trace[0] == Read(p.started)
    && match o
       case Finish(observation) =>
         && Accounted(observation, trace, limits) && Identified(observation, trace, limits) && Paced(trace, limits, p)
         && Decided(observation, trace, limits, expected) && Ended(observation.reason, trace, limits, expected, p)
       case Retry(a) => attempt < limits.maxAttempts && Running(trace, attempt, a, limits, p) && Waiting(trace, p)
       case Abort => Paced(trace, limits, p) && Calls(trace) <= limits.maxAttempts && EndsRaised(trace)
  }

  /** _sleep_within_wall */
  method SleepWithinWall(w: World, seconds: real, limits: Limits, started: real, ghost attempts: nat,
      ghost a: Accounts, ghost p: Pace)
    returns (within: bool)
    requires Running(w.trace, attempts, a, limits, p) && seconds >= p.interval && attempts < limits.maxAttempts
    requires p.deadline == started + limits.wallClockSeconds
    requires w.trace != [] && w.trace[|w.trace| - 1].Call? && Retryable(w.trace[|w.trace| - 1].reply, limits)
    requires seconds == Delay(w.trace[|w.trace| - 1].reply, p.interval)
    modifies w
    ensures Running(w.trace, attempts, a, limits, p) && (within ==> Rested(w.trace, p.interval))
    ensures !within ==> LateRetry(w.trace, limits, p)
    ensures old(w.trace) < w.trace && w.trace[|w.trace| - 1].Read?
    ensures within ==> w.trace[|w.trace| - 1].time < p.deadline
    ensures within ==> w.trace[|old(w.trace)| + 1..] == [Action.Sleep(seconds), w.trace[|w.trace| - 1]]
  {
    var t := w.Clock();
    AfterQuiet(old(w.trace), Read(t), attempts, a, limits, p);
    var remaining := limits.wallClockSeconds - (t - started);
    if seconds >= remaining {
      return false;
    }
    ghost var before := w.trace;
    w.Sleep(seconds);
    AfterQuiet(before, Action.Sleep(seconds), attempts, a, limits, p);
    ghost var slept := w.trace;
    var u := w.Clock();
    AfterQuiet(slept, Read(u), attempts, a, limits, p);
    within := u - started < limits.wallClockSeconds;
  }

  /** The pause before a retry, or the end when no attempt or no time is left. */
  method PauseForRetry(w: World, delay: real, exhausted: Reason, response: Option<Response>, attempt: nat,
      a: Accounts, limits: Limits,
                       started: real, expected: string, ghost p: Pace)
    returns (o: Outcome)
    requires limits.Valid() && attempt <= limits.maxAttempts && Running(w.trace, attempt, a, limits, p)
        && delay >= p.interval
    requires p.deadline == started + limits.wallClockSeconds && response == a.last
    requires w.trace != [] && w.trace[0] == Read(p.started) && w.trace[|w.trace| - 1].Call?
    requires Retryable(w.trace[|w.trace| - 1].reply, limits) && delay == Delay(w.trace[|w.trace| - 1].reply, p.interval)
    requires exhausted == ReplyReason(w.trace[|w.trace| - 1].reply, limits, expected)
    modifies w
    ensures Leads(o, w.trace, attempt, limits, expected, p)
  {
    if attempt == limits.maxAttempts {
      o := Finish(Uncertain(attempt, response, exhausted, a));
      RunningIsAccounted(o.observation, w.trace, attempt, a, limits, p);
      return;
    }
    var within := SleepWithinWall(w, delay, limits, started, attempt, a, p);
    if !within {
      o := Finish(Uncertain(attempt, response, WallClockReachedDuringRetry, a));
      RunningIsAccounted(o.observation, w.trace, attempt, a, limits, p);
      return;
    }
    o := Retry(a);
  }

  /** What a response that passed validation leads to. */
  method JudgeResponse(w: World, expected: string, response: Response, attempt: nat, a: Accounts, limits: Limits,
      started: real, ghost p: Pace)
    returns (o: Outcome)
    requires limits.Valid() && attempt <= limits.maxAttempts && Running(w.trace, attempt, a, limits, p)
    requires w.trace != [] && w.trace[0] == Read(p.started) && w.trace[|w.trace| - 1].Call?
    requires w.trace[|w.trace| - 1].reply == Answered(response)
    requires ValidateResponse(response, limits).None? && a.last == Some(response)
    requires p.interval == limits.MinRequestInterval() && p.deadline == started + limits.wallClockSeconds
    modifies w
    ensures Leads(o, w.trace, attempt, limits, expected, p)
  {
    if response.statusCode in RETRYABLE_STATUS {
      var delay := limits.MinRequestInterval();
      if response.retryAfter.Finite? {
        delay := Max(delay, response.retryAfter.seconds);
      }
      o := PauseForRetry(w, delay, RetriesExhausted, Some(response), attempt, a, limits, started, expected, p);
      return;
    }
    var observation;
    if !(200 <= response.statusCode < 300) {
      observation := Uncertain(attempt, Some(response), NonRetryable, a);
    } else if response.output.None? {
      observation := Uncertain(attempt, Some(response), NoTextOutput, a);
    } else if !Contains(response.output.value, expected) {
      observation := Observation(SubjectFailure, attempt, response.requestId, response.modelRevision, a.inputTokens,
          a.outputTokens, a.cost,
                                 AssertionViolated);
    } else {
      observation := Observation(Observed, attempt, response.requestId, response.modelRevision, a.inputTokens,
          a.outputTokens, a.cost,
                                 AssertionSatisfied);
    }
    RunningIsAccounted(observation, w.trace, attempt, a, limits, p);
    o := Finish(observation);
  }

  /** One attempt of the loop. */
  method Attempt(w: World, expected: string, attempt: nat, a: Accounts, limits: Limits, started: real, ghost p: Pace)
      returns (o: Outcome)
    requires limits.Valid() && 1 <= attempt <= limits.maxAttempts && Running(w.trace, attempt - 1, a, limits, p)
    requires Waiting(w.trace, p) && w.trace[0] == Read(p.started)
    requires p == Pace(started, limits.MinRequestInterval(), started + limits.wallClockSeconds)
    modifies w
    ensures Leads(o, w.trace, attempt, limits, expected, p)
  {
    var t := w.Clock();
    AfterQuiet(old(w.trace), Read(t), attempt - 1, a, limits, p);
    if t - started >= limits.wallClockSeconds {
      o := Finish(Uncertain(attempt - 1, a.last, WallClockReached, a));
      RunningIsAccounted(o.observation, w.trace, attempt - 1, a, limits, p);
      return;
    }
    ghost var before := w.trace;
    var reply := w.Transport(limits.requestTimeoutSeconds);
    AfterCall(before, reply, attempt - 1, a, limits, p);
    match reply
    case Raised => o := Abort;
    case TimedOut =>
      o := PauseForRetry(w, limits.MinRequestInterval(), RequestTimedOut, a.last, attempt, a, limits, started,
          expected, p);
    case Foreign =>
      o := Finish(Uncertain(attempt, a.last, InvalidResponse, a));
      RunningIsAccounted(o.observation, w.trace, attempt, a, limits, p);
    case Answered(response) =>
      var error := ValidateResponse(response, limits);
      if error.Some? {
        o := Finish(Uncertain(attempt, a.last, error.value, a));
        RunningIsAccounted(o.observation, w.trace, attempt, a, limits, p);
      } else {
        var charged := Charged(a, response, limits);
        AttemptsWithinCeiling(limits, attempt);
        if charged.cost > limits.maxEstimatedCostUsd {
          assert false;
        }
        o := JudgeResponse(w, expected, response, attempt, charged, limits, started, p);
      }
  }

  /** run_provider_canary; a failure stands for an exception. The cost never passes the ceiling, so there is no
      overrun to report, and the loop never runs out without an observation. */
  method RunProviderCanary(w: World, expected: string, limits: Limits) returns (r: Result<Observation, ()>)
    requires limits.Valid() && w.trace == []
    modifies w
    ensures r.Success? ==>
              && Accounted(r.value, w.trace, limits) && Identified(r.value, w.trace, limits)
              && Decided(r.value, w.trace, limits, expected)
    ensures r.Failure? ==>
              if 1 <= |expected| <= 256 then EndsRaised(w.trace) else w.trace == []
    ensures !(1 <= |expected| <= 256) ==> r.Failure?
    ensures w.trace != [] ==>
              && w.trace[0].Read?
              && var p := Pace(w.trace[0].time, limits.MinRequestInterval(), w.trace[0].time + limits.wallClockSeconds);
                 && Paced(w.trace, limits, p)
                 && (r.Success? ==> Ended(r.value.reason, w.trace, limits, expected, p))
    ensures Calls(w.trace) <= limits.maxAttempts
  {
    if expected == "" || |expected| > 256 {
      return Failure(());
    }
    var started := w.Clock();
    ghost var p := Pace(started, limits.MinRequestInterval(), started + limits.wallClockSeconds);
    Append([], Read(started), limits, p);
    assert [] + [Read(started)] == w.trace;
    var accounts := Accounts(0, 0, 0.0, None);
    var attempt: nat := 1;
    while attempt <= limits.maxAttempts
      invariant 1 <= attempt <= limits.maxAttempts
      invariant Waiting(w.trace, p) && w.trace[0] == Read(started)
      invariant Running(w.trace, attempt - 1, accounts, limits, p)
      decreases limits.maxAttempts - attempt
    {
      var outcome := Attempt(w, expected, attempt, accounts, limits, started, p);
      match outcome
      case Finish(observation) => return Success(observation);
      case Abort => return Failure(());
      case Retry(next) => accounts, attempt := next, attempt + 1;
    }
    assert false;
  }
}
