/**
 * Sending a request again (src/jmap/core/retry.py, src/jmap/client.py, src/jmap/batch.py):
 * when it is done, how long it may take, and why it never applies a change twice.
 */
module Retries {
  import opened Wrappers
  import opened Invocations
  import Json

  // ---------------------------------------------------------------------------
  // Policy
  // ---------------------------------------------------------------------------

  datatype Safety = NeverApplied | MaybeApplied | Futile

  datatype Failure = Connect | Timeout | Interrupted | Status(status: int, problemType: string)

  const LIMIT_PROBLEM := "urn:ietf:params:jmap:error:limit"

  function Classify(failure: Failure): Safety {
    match failure
    case Connect => NeverApplied
    case Timeout => MaybeApplied
    case Interrupted => MaybeApplied
    case Status(status, problemType) =>
      if problemType == LIMIT_PROBLEM then NeverApplied
      else if status == 429 || status == 503 then NeverApplied
      else if status >= 500 then MaybeApplied
      else Futile
  }

  datatype RetryPolicy = RetryPolicy(
    maxAttempts: nat, initialBackoff: real, maxBackoff: real, multiplier: real, maxRetryAfter: real)
  {
    /** What is checked when a policy is made. */
    predicate Valid() {
      maxAttempts >= 1 && initialBackoff >= 0.0 && maxBackoff >= 0.0 && multiplier >= 1.0 && maxRetryAfter >= 0.0
    }

    function LongestWait(): real {
      if maxBackoff >= maxRetryAfter then maxBackoff else maxRetryAfter
    }
  }

  function Power(base: real, exponent: nat): real {
    if exponent == 0 then 1.0 else base * Power(base, exponent - 1)
  }

  function Backoff(policy: RetryPolicy, attempt: nat, retryAfter: Option<real>): real {
    match retryAfter
    case Some(seconds) => if seconds >= 0.0 then seconds else 0.0
    case None =>
      var grown := policy.initialBackoff * Power(policy.multiplier, if attempt >= 1 then attempt - 1 else 0);
      if policy.maxBackoff <= grown then policy.maxBackoff else grown
  }

  /** None means not to retry at all: the server asked for longer than the policy waits. */
  function Pause(policy: RetryPolicy, attempt: nat, retryAfter: Option<real>): Option<real> {
    if retryAfter.Some? && retryAfter.value > policy.maxRetryAfter then None
    else Some(Backoff(policy, attempt, retryAfter))
  }

  function ShouldRetry(safety: Safety, policy: RetryPolicy, attempt: nat, mutating: bool, guarded: bool): bool {
    && attempt < policy.maxAttempts
    && match safety
       case Futile => false
       case NeverApplied => true
       case MaybeApplied => !mutating || guarded
  }

  lemma {:induction false} PowerGrows(base: real, exponent: nat)
    requires base >= 1.0
    ensures Power(base, exponent) >= 1.0
    ensures Power(base, exponent + 1) >= Power(base, exponent)
  {
    if exponent > 0 { PowerGrows(base, exponent - 1); }
    assert base * Power(base, exponent) >= Power(base, exponent);
  }

  /** The backoff curve never shrinks as failures mount. */
  lemma BackoffGrows(policy: RetryPolicy, attempt: nat)
    requires policy.Valid() && attempt >= 1
    ensures 0.0 <= Backoff(policy, attempt, None) <= Backoff(policy, attempt + 1, None)
  {
    var now, next := Power(policy.multiplier, attempt - 1), Power(policy.multiplier, attempt);
    PowerGrows(policy.multiplier, attempt - 1);
    Scaled(policy.initialBackoff, now, next);
  }

  /** No pause is longer than the policy allows, and none cuts the server's own request short. */
  lemma PauseBounds(policy: RetryPolicy, attempt: nat, retryAfter: Option<real>)
    requires policy.Valid() && attempt >= 1
    ensures Pause(policy, attempt, retryAfter).Some? ==>
              0.0 <= Pause(policy, attempt, retryAfter).value <= policy.LongestWait()
    ensures retryAfter.Some? && Pause(policy, attempt, retryAfter).Some? ==>
              Pause(policy, attempt, retryAfter).value >= retryAfter.value
  {
    if retryAfter.None? { BackoffGrows(policy, attempt); }
  }

  lemma Scaled(base: real, now: real, next: real)
    requires base >= 0.0 && 0.0 <= now <= next
    ensures 0.0 <= base * now <= base * next
  {}

  // ---------------------------------------------------------------------------
  // The retry loop
  // ---------------------------------------------------------------------------

  // What one attempt at posting comes to.
  datatype Reply<R> =
    | Answered(response: R)
    | Unanswered(failure: Failure)
    | Refused(status: int, problemType: string, retryAfter: Option<real>)

  datatype PostError = AuthenticationFailed | RequestRefused(status: int) | TransportFailed(failure: Failure)

  function SafetyOf<R>(reply: Reply<R>): Safety
    requires !reply.Answered?
  {
    match reply
    case Unanswered(failure) => Classify(failure)
    case Refused(status, problemType, _) => Classify(Status(status, problemType))
  }

  function ErrorOf<R>(reply: Reply<R>): PostError
    requires !reply.Answered?
  {
    match reply
    case Unanswered(failure) => TransportFailed(failure)
    case Refused(status, _, _) => if status == 401 then AuthenticationFailed else RequestRefused(status)
  }

  function RetryAfterOf<R>(reply: Reply<R>): Option<real> {
    if reply.Refused? then reply.retryAfter else None
  }

  /** Attempt `attempt` met `reply`, and the request is to be sent again. */
  predicate Resends<R>(policy: RetryPolicy, mutating: bool, guarded: bool, reply: Reply<R>, attempt: nat) {
    && !reply.Answered?
    && !(reply.Refused? && reply.status == 401)
    && Pause(policy, attempt, RetryAfterOf(reply)).Some?
    && ShouldRetry(SafetyOf(reply), policy, attempt, mutating, guarded)
  }

  /** The attempts a run makes: each but the last was answered by something worth retrying. */
  ghost predicate Attempted<R>(
    policy: RetryPolicy, mutating: bool, guarded: bool, replies: nat -> Reply<R>, attempts: nat)
  {
    && 1 <= attempts
    && (forall a :: 1 <= a < attempts ==> Resends(policy, mutating, guarded, replies(a), a))
    && !Resends(policy, mutating, guarded, replies(attempts), attempts)
  }

  /** The waits between the attempts. */
  ghost function Waited<R>(policy: RetryPolicy, replies: nat -> Reply<R>, attempts: nat): real {
    if attempts <= 1 then 0.0
    else
      var pause := Pause(policy, attempts - 1, RetryAfterOf(replies(attempts - 1)));
      Waited(policy, replies, attempts - 1) + (if pause.Some? then pause.value else 0.0)
  }

  function Ending<R>(reply: Reply<R>): Result<R, PostError> {
    if reply.Answered? then Success(reply.response) else Failure(ErrorOf(reply))
  }

  /** The delay before the next attempt; None when this reply ends the loop whatever its safety. */
  function DelayAfter<R>(policy: RetryPolicy, reply: Reply<R>, attempt: nat): Option<real> {
    match reply
    case Answered(_) => None
    case Unanswered(_) => Some(Backoff(policy, attempt, None))
    case Refused(status, _, retryAfter) => if status == 401 then None else Pause(policy, attempt, retryAfter)
  }

  /** Posts a request until it is answered or not worth sending again. `replies` is what each attempt meets. */
  method Post<R>(policy: RetryPolicy, mutating: bool, guarded: bool, replies: nat -> Reply<R>)
    returns (outcome: Result<R, PostError>, attempts: nat, waited: real)
    requires policy.Valid()
    ensures Attempted(policy, mutating, guarded, replies, attempts)
    ensures attempts <= policy.maxAttempts
    ensures waited == Waited(policy, replies, attempts)
    ensures outcome == Ending(replies(attempts))
  {
    attempts, waited := 0, 0.0;
    while true
      invariant attempts < policy.maxAttempts
      invariant forall a :: 1 <= a <= attempts ==> Resends(policy, mutating, guarded, replies(a), a)
      invariant waited == Waited(policy, replies, attempts + 1)
      decreases policy.maxAttempts - attempts
    {
      attempts := attempts + 1;
      var reply := replies(attempts);
      if reply.Answered? { return Success(reply.response), attempts, waited; }
      var delay := DelayAfter(policy, reply, attempts);
      if delay.None? { return Failure(ErrorOf(reply)), attempts, waited; }
      if !ShouldRetry(SafetyOf(reply), policy, attempts, mutating, guarded) {
        return Failure(ErrorOf(reply)), attempts, waited;
      }
      waited := waited + delay.value;
    }
  }

  /** The first wait is the initial backoff, not yet multiplied, unless the server names another. */
  lemma FirstWait<R>(policy: RetryPolicy, replies: nat -> Reply<R>)
    requires policy.Valid() && RetryAfterOf(replies(1)).None?
    ensures Waited(policy, replies, 2) ==
      if policy.maxBackoff <= policy.initialBackoff then policy.maxBackoff else policy.initialBackoff
  {
    assert Power(policy.multiplier, 0) == 1.0;
    assert Waited(policy, replies, 1) == 0.0;
  }

  /** What is documented of `backoff`: the delay before attempt `attempt`, so that 2 is the first retry. */
  function DocumentedWait(policy: RetryPolicy, attempt: nat, retryAfter: Option<real>): real {
    Backoff(policy, attempt, retryAfter)
  }

  /** What is waited before attempt `attempt` of a run: the growth of the total. */
  ghost function WaitBefore<R>(policy: RetryPolicy, replies: nat -> Reply<R>, attempt: nat): real
    requires attempt >= 1
  {
    Waited(policy, replies, attempt) - Waited(policy, replies, attempt - 1)
  }

  /** The backoff after attempt `attempt` cannot grow: it is flat, nothing or at its ceiling. */
  predicate CannotGrow(policy: RetryPolicy, attempt: nat)
    requires attempt >= 1
  {
    || policy.multiplier == 1.0 || policy.initialBackoff == 0.0
    || policy.maxBackoff <= policy.initialBackoff * Power(policy.multiplier, attempt - 1)
  }

  /** Counting an attempt more changes the backoff unless it cannot grow. */
  lemma BackoffStandsExactly(policy: RetryPolicy, attempt: nat)
    requires policy.Valid() && attempt >= 1
    ensures Backoff(policy, attempt, None) == Backoff(policy, attempt + 1, None) <==> CannotGrow(policy, attempt)
  {
    var power := Power(policy.multiplier, attempt - 1);
    PowerGrows(policy.multiplier, attempt - 1);
    NextBackoff(policy.initialBackoff, policy.multiplier, power);
    NextPower(policy.multiplier, attempt);
    Ceilings(policy.initialBackoff * power, policy.initialBackoff * (policy.multiplier * power), policy.maxBackoff);
  }

  lemma NextPower(base: real, n: nat)
    requires n >= 1
    ensures Power(base, n) == base * Power(base, n - 1)
  {}

  lemma Ceilings(now: real, next: real, ceiling: real)
    requires now <= next
    ensures (if ceiling <= now then ceiling else now) == (if ceiling <= next then ceiling else next)
      <==> now == next || ceiling <= now
  {}

  lemma NextBackoff(initial: real, multiplier: real, power: real)
    requires initial >= 0.0 && multiplier >= 1.0 && power >= 1.0
    ensures initial * (multiplier * power) >= initial * power >= 0.0
    ensures initial * (multiplier * power) == initial * power <==> multiplier == 1.0 || initial == 0.0
    ensures initial > 0.0 ==> initial * power > 0.0
  {
    var now := initial * power;
    assert initial * (multiplier * power) == multiplier * now;
    assert multiplier * now - now == (multiplier - 1.0) * now;
    if initial > 0.0 {
      assert now > 0.0;
      if multiplier > 1.0 { assert (multiplier - 1.0) * now > 0.0; }
    }
  }

  /** Whatever the server names: one attempt more never shortens the delay, and leaves it just then. */
  lemma DelayStandsExactly(policy: RetryPolicy, attempt: nat, retryAfter: Option<real>)
    requires policy.Valid() && attempt >= 1
    ensures Backoff(policy, attempt, retryAfter) <= Backoff(policy, attempt + 1, retryAfter)
    ensures Backoff(policy, attempt, retryAfter) == Backoff(policy, attempt + 1, retryAfter)
      <==> retryAfter.Some? || CannotGrow(policy, attempt)
  {
    if retryAfter.None? {
      BackoffStandsExactly(policy, attempt);
      BackoffGrows(policy, attempt);
    }
  }

  /** A run waits the backoff of the attempt that failed. */
  lemma WaitTaken<R>(
    policy: RetryPolicy, mutating: bool, guarded: bool, replies: nat -> Reply<R>, attempts: nat, attempt: nat)
    requires Attempted(policy, mutating, guarded, replies, attempts) && 2 <= attempt <= attempts
    ensures WaitBefore(policy, replies, attempt) == Backoff(policy, attempt - 1, RetryAfterOf(replies(attempt - 1)))
  {
    assert Resends(policy, mutating, guarded, replies(attempt - 1), attempt - 1);
  }

  /**
   * The exact condition. Before any attempt a run makes after its first, what is waited is
   * what is documented if and only if the server named the delay or the backoff cannot grow
   * there; and it is never longer.
   */
  lemma WaitIsDocumentedExactly<R>(
    policy: RetryPolicy, mutating: bool, guarded: bool, replies: nat -> Reply<R>, attempts: nat, attempt: nat)
    requires policy.Valid() && Attempted(policy, mutating, guarded, replies, attempts) && 2 <= attempt <= attempts
    ensures
      var retryAfter := RetryAfterOf(replies(attempt - 1));
      && WaitBefore(policy, replies, attempt) <= DocumentedWait(policy, attempt, retryAfter)
      && (WaitBefore(policy, replies, attempt) == DocumentedWait(policy, attempt, retryAfter) <==>
            retryAfter.Some? || CannotGrow(policy, attempt - 1))
  {
    WaitTaken(policy, mutating, guarded, replies, attempts, attempt);
    DelayStandsExactly(policy, attempt - 1, RetryAfterOf(replies(attempt - 1)));
  }

  /** With half a second growing twofold, the first retry waits half of the second that is documented. */
  lemma DefaultWaitIsShorter<R>(policy: RetryPolicy, replies: nat -> Reply<R>)
    requires policy == RetryPolicy(3, 0.5, 30.0, 2.0, 120.0) && RetryAfterOf(replies(1)).None?
    ensures WaitBefore(policy, replies, 2) == 0.5 && DocumentedWait(policy, 2, None) == 1.0
  {
    FirstWait(policy, replies);
    assert Waited(policy, replies, 1) == 0.0;
    assert Power(2.0, 1) == 2.0 * Power(2.0, 0) == 2.0;
  }

  /** `n` waits of one length. */
  function Waits(n: nat, wait: real): real {
    if n == 0 then 0.0 else Waits(n - 1, wait) + wait
  }

  lemma {:induction false} WaitsProduct(n: nat, wait: real)
    requires wait >= 0.0
    ensures Waits(n, wait) == n as real * wait
  {
    if n > 0 {
      WaitsProduct(n - 1, wait);
      assert (n - 1) as real * wait + wait == ((n - 1) as real + 1.0) * wait;
    }
  }

  lemma {:induction false} WaitsGrow(m: nat, n: nat, wait: real)
    requires m <= n && wait >= 0.0
    ensures 0.0 <= Waits(m, wait) <= Waits(n, wait)
    decreases n
  {
    if m < n { WaitsGrow(m, n - 1, wait); }
    else if n > 0 { WaitsGrow(m - 1, n - 1, wait); }
  }

  /** The waits add up to at most one longest wait for each attempt but the first. */
  lemma {:induction false} WaitedBound<R>(
    policy: RetryPolicy, replies: nat -> Reply<R>, attempts: nat, longest: real)
    requires policy.Valid() && attempts >= 1 && longest == policy.LongestWait()
    ensures Waited(policy, replies, attempts) <= Waits(attempts - 1, longest)
  {
    if attempts > 1 {
      WaitedBound(policy, replies, attempts - 1, longest);
      PauseBounds(policy, attempts - 1, RetryAfterOf(replies(attempts - 1)));
    }
  }

  lemma WaitsWithin(m: nat, n: nat, wait: real)
    requires m <= n && wait >= 0.0
    ensures Waits(m, wait) <= n as real * wait
  {
    WaitsGrow(m, n, wait);
    WaitsProduct(n, wait);
  }

  /** In a run of at most `maxAttempts` attempts, the total time waited is bounded by the policy. */
  lemma TotalWaitBound<R>(policy: RetryPolicy, replies: nat -> Reply<R>, attempts: nat, longest: real, bound: real)
    requires policy.Valid() && 1 <= attempts <= policy.maxAttempts
    requires longest == policy.LongestWait() && bound == (policy.maxAttempts - 1) as real * longest
    ensures Waited(policy, replies, attempts) <= bound
  {
    WaitsWithin(attempts - 1, policy.maxAttempts - 1, longest);
    WaitedBound(policy, replies, attempts, longest);
  }

  /** The attempts of every run are at most the policy's. */
  lemma AttemptsBound<R>(
    policy: RetryPolicy, mutating: bool, guarded: bool, replies: nat -> Reply<R>, attempts: nat)
    requires policy.Valid() && Attempted(policy, mutating, guarded, replies, attempts)
    ensures attempts <= policy.maxAttempts
  {
    if attempts > 1 { assert Resends(policy, mutating, guarded, replies(attempts - 1), attempts - 1); }
  }

  // ---------------------------------------------------------------------------
  // Guards
  // ---------------------------------------------------------------------------

  // What an `ifInState` argument holds a change to.
  datatype Guard = Unguarded | InState(state: string) | Resolved

  // A call that can change server state: which records it is about, and its guard.
  datatype Change = Change(scope: string, guard: Guard)

  function GuardOf(arguments: seq<Argument>): Guard {
    if arguments == [] then Unguarded
    else if arguments[0].key == "ifInState" then
      match arguments[0].value
      case Reference(_) => Resolved
      case Literal(Str(state)) => InState(state)
      case Literal(_) => Unguarded
    else GuardOf(arguments[1..])
  }

  /** Only a literal, non-empty state would fail a repeat. */
  predicate Holds(guard: Guard) {
    guard.InState? && guard.state != ""
  }

  predicate IsGuarded(change: Change) {
    Holds(change.guard)
  }

  predicate AllGuarded(changes: seq<Change>) {
    forall k :: 0 <= k < |changes| ==> IsGuarded(changes[k])
  }

  // What the capabilities of the session say about a method; one they do not know is missing.
  type MutatingFlags = map<string, bool>

  predicate Mutates(call: QueuedCall, flags: MutatingFlags) {
    call.call.name in flags && flags[call.call.name]
  }

  predicate IsMutating(calls: seq<QueuedCall>, flags: MutatingFlags) {
    exists k :: 0 <= k < |calls| && Mutates(calls[k], flags)
  }

  function ChangeOf(call: QueuedCall, scopeOf: QueuedCall -> string): Change {
    Change(scopeOf(call), GuardOf(call.call.arguments))
  }

  predicate AllMutationsGuarded(calls: seq<QueuedCall>, flags: MutatingFlags) {
    forall k :: 0 <= k < |calls| && Mutates(calls[k], flags) ==> Holds(GuardOf(calls[k].call.arguments))
  }

  /** The changes a batch asks for; `scopeOf` tells which records a call is about. */
  function ChangesOf(calls: seq<QueuedCall>, flags: MutatingFlags, scopeOf: QueuedCall -> string): seq<Change> {
    if calls == [] then []
    else
      var last := calls[|calls| - 1];
      ChangesOf(calls[..|calls| - 1], flags, scopeOf) + (if Mutates(last, flags) then [ChangeOf(last, scopeOf)] else [])
  }

  /** The two questions asked about a batch before posting are questions about its changes. */
  lemma {:induction false} BatchQuestions(calls: seq<QueuedCall>, flags: MutatingFlags, scopeOf: QueuedCall -> string)
    ensures IsMutating(calls, flags) <==> ChangesOf(calls, flags, scopeOf) != []
    ensures AllMutationsGuarded(calls, flags) <==> AllGuarded(ChangesOf(calls, flags, scopeOf))
  {
    if calls != [] {
      var init, last := calls[..|calls| - 1], calls[|calls| - 1];
      BatchQuestions(init, flags, scopeOf);
      var before, after := ChangesOf(init, flags, scopeOf), ChangesOf(calls, flags, scopeOf);
      assert forall k :: 0 <= k < |init| ==> init[k] == calls[k];
      assert forall k :: 0 <= k < |before| ==> before[k] == after[k];
      if Mutates(last, flags) { assert after[|before|] == ChangeOf(last, scopeOf); }
    }
  }

  // ---------------------------------------------------------------------------
  // A server that may apply what it does not answer
  // ---------------------------------------------------------------------------

  // The state of each scope, and the states each has left for good.
  datatype World = World(current: map<string, string>, past: set<(string, string)>)

  // What happens on the server: one of our changes is applied, on behalf of some attempt,
  // possibly long after that attempt was given up; or somebody else changes a scope.
  datatype Happening = Applied(attempt: nat, change: nat) | Elsewhere(scope: string)

  /** A scope moves to a state it has never been in (section 1.5 of RFC 8620). */
  ghost predicate Moves(w: World, w': World, scope: string) {
    && scope in w.current
    && w'.current.Keys == w.current.Keys
    && (forall s :: s in w.current && s != scope ==> w'.current[s] == w.current[s])
    && w'.past == w.past + {(scope, w.current[scope])}
    && (scope, w'.current[scope]) !in w'.past
  }

  /** A guard that names another state than the current one keeps the change from applying. */
  ghost predicate Passes(w: World, change: Change) {
    change.scope in w.current && (change.guard.InState? ==> change.guard.state == w.current[change.scope])
  }

  ghost predicate StatesNeverRecur(w: World) {
    forall s :: s in w.current ==> (s, w.current[s]) !in w.past
  }

  ghost predicate Happens(changes: seq<Change>, attempts: nat, w: World, w': World, happening: Happening) {
    match happening
    case Elsewhere(scope) => Moves(w, w', scope)
    case Applied(attempt, k) =>
      && 1 <= attempt <= attempts && k < |changes|
      && Passes(w, changes[k])
      && Moves(w, w', changes[k].scope)
  }

  /**
   * A history in which each attempt's request runs at most once, and the attempts that
   * provably never reached application run nothing.
   */
  ghost predicate IsHistory<R>(
    changes: seq<Change>, replies: nat -> Reply<R>, attempts: nat, worlds: seq<World>, happenings: seq<Happening>)
  {
    && |worlds| == |happenings| + 1
    && StatesNeverRecur(worlds[0])
    && (forall i {:trigger happenings[i]} :: 0 <= i < |happenings| ==>
          Happens(changes, attempts, worlds[i], worlds[i + 1], happenings[i]))
    && (forall i, j :: 0 <= i < j < |happenings| && happenings[i].Applied? ==> happenings[i] != happenings[j])
    && (forall i :: 0 <= i < |happenings| && happenings[i].Applied? ==>
          var reply := replies(happenings[i].attempt);
          !reply.Answered? ==> SafetyOf(reply) != NeverApplied)
  }

  lemma {:induction false} PastStays<R>(
    changes: seq<Change>, replies: nat -> Reply<R>, attempts: nat, worlds: seq<World>, happenings: seq<Happening>,
    i: nat, j: nat)
    requires IsHistory(changes, replies, attempts, worlds, happenings) && i <= j < |worlds|
    ensures worlds[i].past <= worlds[j].past && StatesNeverRecur(worlds[j])
    decreases j
  {
    if j == 0 {
    } else {
      PastStays(changes, replies, attempts, worlds, happenings, if i < j then i else j - 1, j - 1);
      var happening := happenings[j - 1];
      assert Happens(changes, attempts, worlds[j - 1], worlds[j - 1 + 1], happening);
    }
  }

  /** A literal guard fails for good once its change has been applied. */
  lemma GuardFailsAfterwards<R>(
    changes: seq<Change>, replies: nat -> Reply<R>, attempts: nat, worlds: seq<World>, happenings: seq<Happening>,
    i: nat, j: nat)
    requires IsHistory(changes, replies, attempts, worlds, happenings) && i < j < |happenings|
    requires happenings[i].Applied? && happenings[j].Applied? && happenings[i].change == happenings[j].change
    ensures happenings[i].change < |changes|
    ensures !changes[happenings[i].change].guard.InState?
  {
    assert Happens(changes, attempts, worlds[i], worlds[i + 1], happenings[i]);
    assert Happens(changes, attempts, worlds[j], worlds[j + 1], happenings[j]);
    var scope := changes[happenings[i].change].scope;
    PastStays(changes, replies, attempts, worlds, happenings, i + 1, j);
    assert (scope, worlds[i].current[scope]) in worlds[j].past;
    assert worlds[j].current[scope] != worlds[i].current[scope];
  }

  /**
   * In every run of the loop, whatever the server does with the requests it does not answer,
   * each change is applied at most once.
   */
  lemma AtMostOnce<R>(
    policy: RetryPolicy, changes: seq<Change>, replies: nat -> Reply<R>, attempts: nat,
    worlds: seq<World>, happenings: seq<Happening>, i: nat, j: nat)
    requires Attempted(policy, changes != [], AllGuarded(changes), replies, attempts)
    requires IsHistory(changes, replies, attempts, worlds, happenings)
    requires i < j < |happenings| && happenings[i].Applied? && happenings[j].Applied?
    ensures happenings[i].change != happenings[j].change
  {
    var k := happenings[i].change;
    if k == happenings[j].change {
      GuardFailsAfterwards(changes, replies, attempts, worlds, happenings, i, j);
      assert !IsGuarded(changes[k]);
      OnlyLastAttemptRuns(policy, changes, replies, attempts, worlds, happenings, i);
      OnlyLastAttemptRuns(policy, changes, replies, attempts, worlds, happenings, j);
    }
  }

  /** The same for the calls of a batch, with what is asked about it before it is posted. */
  lemma BatchAppliedAtMostOnce<R>(
    policy: RetryPolicy, calls: seq<QueuedCall>, flags: MutatingFlags, scopeOf: QueuedCall -> string,
    replies: nat -> Reply<R>, attempts: nat, worlds: seq<World>, happenings: seq<Happening>, i: nat, j: nat)
    requires Attempted(policy, IsMutating(calls, flags), AllMutationsGuarded(calls, flags), replies, attempts)
    requires IsHistory(ChangesOf(calls, flags, scopeOf), replies, attempts, worlds, happenings)
    requires i < j < |happenings| && happenings[i].Applied? && happenings[j].Applied?
    ensures happenings[i].change != happenings[j].change
  {
    BatchQuestions(calls, flags, scopeOf);
    AtMostOnce(policy, ChangesOf(calls, flags, scopeOf), replies, attempts, worlds, happenings, i, j);
  }

  /** With an unguarded change aboard, every attempt but the last provably ran nothing. */
  lemma OnlyLastAttemptRuns<R>(
    policy: RetryPolicy, changes: seq<Change>, replies: nat -> Reply<R>, attempts: nat,
    worlds: seq<World>, happenings: seq<Happening>, i: nat)
    requires Attempted(policy, changes != [], AllGuarded(changes), replies, attempts)
    requires IsHistory(changes, replies, attempts, worlds, happenings)
    requires i < |happenings| && happenings[i].Applied? && !AllGuarded(changes)
    ensures happenings[i].attempt == attempts
  {
    var a := happenings[i].attempt;
    assert Happens(changes, attempts, worlds[i], worlds[i + 1], happenings[i]);
    assert a < attempts ==> Resends(policy, changes != [], AllGuarded(changes), replies(a), a);
  }

  /** Had a back-reference counted as a guard, a timeout could apply its change twice. */
  lemma ResolvedStateIsNoGuard(policy: RetryPolicy, replies: nat -> Reply<int>)
    returns (worlds: seq<World>, happenings: seq<Happening>)
    requires policy.Valid() && policy.maxAttempts >= 2
    requires replies(1) == Unanswered(Timeout) && replies(2) == Answered(0)
    ensures Attempted(policy, true, true, replies, 2)
    ensures IsHistory([Change("a/Email", Resolved)], replies, 2, worlds, happenings)
    ensures happenings == [Applied(1, 0), Applied(2, 0)]
  {
    var scope := "a/Email";
    happenings := [Applied(1, 0), Applied(2, 0)];
    worlds := [World(map[scope := "s0"], {}), World(map[scope := "s1"], {(scope, "s0")}),
               World(map[scope := "s2"], {(scope, "s0"), (scope, "s1")})];
    assert "s0"[1] != "s1"[1] && "s1"[1] != "s2"[1] && "s0"[1] != "s2"[1];
    assert Moves(worlds[0], worlds[1], scope) && Moves(worlds[1], worlds[2], scope);
  }
}
