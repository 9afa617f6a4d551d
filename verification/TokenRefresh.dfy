/**
 * Renewing an access token under concurrency (src/jmap/auth/credentials.py): any number of
 * threads send requests through one credential, each read and write of a field is one step,
 * and steps of different threads interleave freely.
 */
module TokenRefresh {
  import opened Wrappers

  type Thread = nat

  // Tokens are compared by identity.
  type Token = nat

  // Where a refresh returns to: the first sending of the request or its one retry.
  datatype Caller = BeforeSending | AfterRefusal

  // A request the refresh callable itself sends through the same credential.
  datatype Inner =
    | NoRequest
    | InnerCheck
    | InnerRead
    | InnerApply(seen: nat)
    | InnerSent(seen: nat)
    | InnerRefresh(seen: nat)
    | InnerWait(seen: nat)

  datatype Pc =
    | Idle
    | Check                                   // _refresh_if_expiring
    | Read                                    // seen = self._generation
    | Apply(seen: nat)                        // the token goes into the header
    | Sent(seen: nat)                         // yield request
    | Enter(seen: nat, caller: Caller)        // _refresh_once: is this thread refreshing already?
    | Wait(seen: nat, caller: Caller)         // with self._lock
    | Compare(seen: nat, caller: Caller)      // did someone else refresh?
    | Claim(seen: nat, caller: Caller)        // self._refreshing = this thread
    | Present(seen: nat, caller: Caller)      // refresh(self._token)
    | Calling(seen: nat, caller: Caller, presented: Token, inner: Inner)
    | Save(seen: nat, caller: Caller, presented: Token, renewed: Token)
    | Adopt(seen: nat, caller: Caller, presented: Token, renewed: Token, saved: bool)
    | Count(seen: nat, caller: Caller, saved: bool)
    | Clear(seen: nat, caller: Caller, ok: bool)
    | Release(seen: nat, caller: Caller, ok: bool)
    | Reapply
    | Resent

  datatype State = State(
    token: Token,
    generation: nat,
    lock: Option<Thread>,
    refreshing: Option<Thread>,
    threads: map<Thread, Pc>,
    // History: tokens the refresh callable may no longer return, tokens refreshed with
    // success, tokens handed to the store, the generation each success started from, and
    // the generations whose refresh has returned to a caller.
    issued: set<Token>,
    spent: set<Token>,
    offered: set<Token>,
    successes: seq<nat>,
    settled: set<nat>)

  predicate Init(s: State) {
    && s.generation == 0 && s.lock.None? && s.refreshing.None?
    && (forall t :: t in s.threads ==> s.threads[t] == Idle)
    && s.issued == {s.token} && s.spent == {} && s.offered == {}
    && s.successes == [] && s.settled == {}
  }

  function At(s: State, t: Thread, pc: Pc): State
    requires t in s.threads
  {
    s.(threads := s.threads[t := pc])
  }

  function Back(caller: Caller): Pc {
    match caller
    case BeforeSending => Read
    case AfterRefusal => Reapply
  }

  // ---------------------------------------------------------------------------
  // Steps
  // ---------------------------------------------------------------------------

  /** Sending: everything outside the lock. A response may be anything, and a token may be expiring. */
  ghost predicate SendStep(s: State, s': State, t: Thread)
    requires t in s.threads
  {
    match s.threads[t]
    case Idle => s' == At(s, t, Check)
    case Check =>
      || s' == At(s, t, Read)
      || (s.refreshing != Some(t) && s' == At(s, t, Enter(s.generation, BeforeSending)))
    case Read => s' == At(s, t, Apply(s.generation))
    case Apply(seen) => s' == At(s, t, Sent(seen))
    case Sent(seen) => s' == At(s, t, Idle) || s' == At(s, t, Enter(seen, AfterRefusal))
    case Reapply => s' == At(s, t, Resent)
    case Resent => s' == At(s, t, Idle)
    case _ => false
  }

  /** Entering `_refresh_once` and leaving the lock. */
  ghost predicate LockStep(s: State, s': State, t: Thread)
    requires t in s.threads
  {
    match s.threads[t]
    case Enter(seen, caller) =>
      s' == At(s, t, if s.refreshing == Some(t) then Idle else Wait(seen, caller))
    case Wait(seen, caller) =>
      s.lock.None? && s' == At(s, t, Compare(seen, caller)).(lock := Some(t))
    case Compare(seen, caller) =>
      s' == At(s, t, if s.generation != seen then Release(seen, caller, true) else Claim(seen, caller))
    case Claim(seen, caller) => s' == At(s, t, Present(seen, caller)).(refreshing := Some(t))
    case Clear(seen, caller, ok) => s' == At(s, t, Release(seen, caller, ok)).(refreshing := None)
    case Release(seen, caller, ok) =>
      s' == At(s, t, if ok then Back(caller) else Idle)
            .(lock := None, settled := if ok then s.settled + {seen} else s.settled)
    case _ => false
  }

  /** Refreshing: the callable is given the token, returns a new one or raises; the store may raise. */
  ghost predicate RefreshStep(s: State, s': State, t: Thread)
    requires t in s.threads
  {
    match s.threads[t]
    case Present(seen, caller) => s' == At(s, t, Calling(seen, caller, s.token, NoRequest))
    case Calling(seen, caller, presented, NoRequest) =>
      || (exists renewed: Token :: renewed !in s.issued
            && s' == At(s, t, Save(seen, caller, presented, renewed))
                     .(issued := s.issued + {renewed}, spent := s.spent + {presented},
                       successes := s.successes + [seen]))
      || s' == At(s, t, Clear(seen, caller, false))
    case Save(seen, caller, presented, renewed) =>
      exists saved: bool ::
        s' == At(s, t, Adopt(seen, caller, presented, renewed, saved)).(offered := s.offered + {renewed})
    case Adopt(seen, caller, presented, renewed, saved) =>
      s' == At(s, t, Count(seen, caller, saved)).(token := renewed)
    case Count(seen, caller, saved) =>
      s' == At(s, t, Clear(seen, caller, saved)).(generation := s.generation + 1)
    case _ => false
  }

  /** A request sent from inside the refresh callable, through this same credential. */
  ghost predicate InnerStep(s: State, s': State, t: Thread)
    requires t in s.threads
  {
    match s.threads[t]
    case Calling(seen, caller, presented, inner) =>
      (match inner
       case NoRequest => s' == At(s, t, Calling(seen, caller, presented, InnerCheck))
       case InnerCheck =>
         || s' == At(s, t, Calling(seen, caller, presented, InnerRead))
         || (s.refreshing != Some(t) && s' == At(s, t, Calling(seen, caller, presented, InnerRefresh(s.generation))))
       case InnerRead => s' == At(s, t, Calling(seen, caller, presented, InnerApply(s.generation)))
       case InnerApply(read) => s' == At(s, t, Calling(seen, caller, presented, InnerSent(read)))
       case InnerSent(read) =>
         || s' == At(s, t, Calling(seen, caller, presented, NoRequest))
         || s' == At(s, t, Calling(seen, caller, presented, InnerRefresh(read)))
       case InnerRefresh(read) =>
         s' == At(s, t, Calling(seen, caller, presented,
                                if s.refreshing == Some(t) then NoRequest else InnerWait(read)))
       case InnerWait(_) => false)
    case _ => false
  }

  ghost predicate Step(s: State, s': State, t: Thread) {
    t in s.threads
    && (SendStep(s, s', t) || LockStep(s, s', t) || RefreshStep(s, s', t) || InnerStep(s, s', t))
  }

  ghost predicate Next(s: State, s': State) {
    exists t :: Step(s, s', t)
  }

  ghost predicate IsRun(run: seq<State>) {
    run != [] && Init(run[0]) && forall i :: 0 <= i < |run| - 1 ==> Next(run[i], run[i + 1])
  }

  // ---------------------------------------------------------------------------
  // The invariant
  // ---------------------------------------------------------------------------

  predicate HoldsLock(pc: Pc) {
    pc.Compare? || pc.Release? || pc.Claim? || Owns(pc)
  }

  /** Between claiming the refresh and clearing the claim. */
  predicate Owns(pc: Pc) {
    pc.Present? || pc.Calling? || pc.Save? || pc.Adopt? || pc.Count? || pc.Clear?
  }

  /** The refresh has succeeded and its generation is not counted yet. */
  predicate Succeeding(pc: Pc) {
    pc.Save? || pc.Adopt? || pc.Count?
  }

  /** The presented token is spent and its successor not adopted yet. */
  predicate Replacing(pc: Pc) {
    pc.Save? || pc.Adopt?
  }

  function Counting(n: nat): seq<nat> {
    seq(n, i => i)
  }

  ghost predicate ThreadInv(s: State, t: Thread)
    requires t in s.threads
  {
    var pc := s.threads[t];
    && (s.lock == Some(t) <==> HoldsLock(pc))
    && (s.refreshing == Some(t) <==> Owns(pc))
    && (match pc
        case Claim(seen, _) => seen == s.generation
        case Present(seen, _) => seen == s.generation
        case Calling(seen, _, presented, inner) =>
          seen == s.generation && presented == s.token && !inner.InnerWait?
        case Save(seen, _, presented, renewed) =>
          seen == s.generation && presented == s.token && renewed in s.issued && renewed !in s.spent
        case Adopt(seen, _, presented, renewed, _) =>
          seen == s.generation && presented == s.token && renewed in s.offered
          && renewed in s.issued && renewed !in s.spent
        case Count(seen, _, _) => seen == s.generation
        case Clear(seen, _, ok) => ok ==> seen < s.generation
        case Release(seen, _, ok) => ok ==> seen < s.generation
        case Compare(seen, _) => seen <= s.generation
        case Wait(seen, _) => seen <= s.generation
        case Enter(seen, _) => seen <= s.generation
        case Sent(seen) => seen <= s.generation
        case Apply(seen) => seen <= s.generation
        case _ => true)
  }

  /** The lock holder's program counter, when there is one. */
  ghost predicate HolderIs(s: State, p: Pc -> bool) {
    s.lock.Some? && s.lock.value in s.threads && p(s.threads[s.lock.value])
  }

  ghost predicate Inv(s: State) {
    && (forall t :: t in s.threads ==> ThreadInv(s, t))
    && (s.lock.Some? ==> s.lock.value in s.threads)
    && (s.refreshing.Some? ==> s.refreshing == s.lock)
    && s.spent <= s.issued && s.token in s.issued
    // The current token is spent only while its successor is on the way in.
    && (s.token in s.spent <==> HolderIs(s, Replacing))
    && s.successes == Counting(s.generation) + (if HolderIs(s, Succeeding) then [s.generation] else [])
    && (forall g :: g in s.settled ==> g < s.generation)
  }

  lemma InitInv(s: State)
    requires Init(s)
    ensures Inv(s)
  {}

  /** Steps that leave the lock, the claim, the token and the histories alone. */
  lemma QuietStepKeepsInv(s: State, s': State, t: Thread, pc: Pc)
    requires Inv(s) && t in s.threads && s' == At(s, t, pc)
    requires HoldsLock(pc) == HoldsLock(s.threads[t]) && Owns(pc) == Owns(s.threads[t])
    requires Succeeding(pc) == Succeeding(s.threads[t]) && Replacing(pc) == Replacing(s.threads[t])
    requires ThreadInv(s', t)
    ensures Inv(s')
  {
    forall u | u in s'.threads ensures ThreadInv(s', u) {
      if u != t { assert ThreadInv(s, u); }
    }
  }

  lemma SendKeepsInv(s: State, s': State, t: Thread)
    requires Inv(s) && t in s.threads && SendStep(s, s', t)
    ensures Inv(s')
  {
    assert ThreadInv(s, t);
    QuietStepKeepsInv(s, s', t, s'.threads[t]);
  }

  lemma InnerKeepsInv(s: State, s': State, t: Thread)
    requires Inv(s) && t in s.threads && InnerStep(s, s', t)
    ensures Inv(s')
  {
    assert ThreadInv(s, t);
    QuietStepKeepsInv(s, s', t, s'.threads[t]);
  }

  /** Taking the lock, and giving it back. */
  lemma HandKeepsInv(s: State, s': State, t: Thread)
    requires Inv(s) && t in s.threads && LockStep(s, s', t) && (s.threads[t].Wait? || s.threads[t].Release?)
    ensures Inv(s')
  {
    assert ThreadInv(s, t);
    forall u | u in s'.threads ensures ThreadInv(s', u) { assert ThreadInv(s, u); }
  }

  /** Claiming the refresh, and clearing the claim. */
  lemma ClaimKeepsInv(s: State, s': State, t: Thread)
    requires Inv(s) && t in s.threads && LockStep(s, s', t) && (s.threads[t].Claim? || s.threads[t].Clear?)
    ensures Inv(s')
  {
    assert ThreadInv(s, t);
    forall u | u in s'.threads ensures ThreadInv(s', u) { assert ThreadInv(s, u); }
  }

  lemma LockKeepsInv(s: State, s': State, t: Thread)
    requires Inv(s) && t in s.threads && LockStep(s, s', t)
    ensures Inv(s')
  {
    assert ThreadInv(s, t);
    var pc := s.threads[t];
    if pc.Wait? || pc.Release? {
      HandKeepsInv(s, s', t);
    } else if pc.Claim? || pc.Clear? {
      ClaimKeepsInv(s, s', t);
    } else {
      QuietStepKeepsInv(s, s', t, s'.threads[t]);
    }
  }

  /** A refresh that succeeds, and the token it brings handed to the store. */
  lemma SuccessKeepsInv(s: State, s': State, t: Thread)
    requires Inv(s) && t in s.threads && RefreshStep(s, s', t)
    requires s.threads[t].Save? || (s.threads[t].Calling? && s'.threads[t].Save?)
    ensures Inv(s')
  {
    assert ThreadInv(s, t);
    forall u | u in s'.threads ensures ThreadInv(s', u) { assert ThreadInv(s, u); }
  }

  /** The new token adopted, and its generation counted. */
  lemma AdoptionKeepsInv(s: State, s': State, t: Thread)
    requires Inv(s) && t in s.threads && RefreshStep(s, s', t) && (s.threads[t].Adopt? || s.threads[t].Count?)
    ensures Inv(s')
  {
    assert ThreadInv(s, t);
    forall u | u in s'.threads ensures ThreadInv(s', u) { assert ThreadInv(s, u); }
    assert Counting(s.generation + 1) == Counting(s.generation) + [s.generation];
  }

  lemma RefreshKeepsInv(s: State, s': State, t: Thread)
    requires Inv(s) && t in s.threads && RefreshStep(s, s', t)
    ensures Inv(s')
  {
    assert ThreadInv(s, t);
    var pc := s.threads[t];
    if pc.Adopt? || pc.Count? {
      AdoptionKeepsInv(s, s', t);
    } else if pc.Save? || (pc.Calling? && s'.threads[t].Save?) {
      SuccessKeepsInv(s, s', t);
    } else {
      QuietStepKeepsInv(s, s', t, s'.threads[t]);
    }
  }

  lemma {:induction false} RunInv(run: seq<State>, i: nat)
    requires IsRun(run) && i < |run|
    ensures Inv(run[i])
  {
    if i == 0 {
      InitInv(run[0]);
    } else {
      RunInv(run, i - 1);
      assert Next(run[i - 1], run[i - 1 + 1]);
      var s, s' := run[i - 1], run[i];
      var t :| Step(s, s', t);
      if SendStep(s, s', t) { SendKeepsInv(s, s', t); }
      else if LockStep(s, s', t) { LockKeepsInv(s, s', t); }
      else if RefreshStep(s, s', t) { RefreshKeepsInv(s, s', t); }
      else { InnerKeepsInv(s, s', t); }
    }
  }

  // ---------------------------------------------------------------------------
  // What every run keeps
  // ---------------------------------------------------------------------------

  /** Inside `_refresh_once` with the claim made: refreshing, saving or adopting. */
  lemma OneRefreshAtATime(run: seq<State>, i: nat, t: Thread, u: Thread)
    requires IsRun(run) && i < |run|
    requires t in run[i].threads && u in run[i].threads
    requires Owns(run[i].threads[t]) && Owns(run[i].threads[u])
    ensures t == u
  {
    RunInv(run, i);
    assert ThreadInv(run[i], t) && ThreadInv(run[i], u);
  }

  /** A token whose refresh succeeded is never given to the refresh callable again. */
  lemma SpentTokenNeverPresented(run: seq<State>, i: nat, t: Thread)
    requires IsRun(run) && i + 1 < |run|
    requires t in run[i].threads && run[i].threads[t].Present?
    requires Step(run[i], run[i + 1], t)
    ensures run[i + 1].threads[t].Calling? && run[i + 1].threads[t].presented !in run[i].spent
  {
    RunInv(run, i);
    assert ThreadInv(run[i], t);
  }

  lemma {:induction false} CountedOnce(n: nat, g: nat)
    ensures multiset(Counting(n))[g] == if g < n then 1 else 0
  {
    if n > 0 {
      CountedOnce(n - 1, g);
      assert Counting(n) == Counting(n - 1) + [n - 1];
    }
  }

  /**
   * However many requests were refused at generation `g`, at most one refresh started from
   * it succeeds; and once any of them is told to go on, exactly one has.
   */
  lemma OneSuccessPerGeneration(run: seq<State>, i: nat, g: nat)
    requires IsRun(run) && i < |run|
    ensures multiset(run[i].successes)[g] <= 1
    ensures g in run[i].settled ==> multiset(run[i].successes)[g] == 1
    ensures g in run[i].settled ==> g < run[i].generation
  {
    RunInv(run, i);
    CountedOnce(run[i].generation, g);
  }

  lemma StepOffers(s: State, s': State, t: Thread)
    requires Inv(s) && Step(s, s', t)
    ensures s.offered <= s'.offered
    ensures s'.token == s.token || s'.token in s.offered
  {
    assert ThreadInv(s, t);
    if SendStep(s, s', t) {
    } else if LockStep(s, s', t) {
    } else if InnerStep(s, s', t) {
    } else {
      assert RefreshStep(s, s', t);
    }
  }

  /** Every token in use but the first was handed to the store before it was adopted, saved or not. */
  lemma {:induction false} OfferedBeforeAdopted(run: seq<State>, i: nat)
    requires IsRun(run) && i < |run|
    ensures run[i].token == run[0].token || run[i].token in run[i].offered
  {
    if i > 0 {
      OfferedBeforeAdopted(run, i - 1);
      RunInv(run, i - 1);
      assert Next(run[i - 1], run[i - 1 + 1]);
      var t :| Step(run[i - 1], run[i], t);
      StepOffers(run[i - 1], run[i], t);
    }
  }

  /** No thread waits on the lock it holds, not even from inside the refresh callable. */
  lemma NoThreadWaitsOnItself(run: seq<State>, i: nat, t: Thread)
    requires IsRun(run) && i < |run| && t in run[i].threads
    ensures run[i].threads[t].Wait? ==> run[i].lock != Some(t)
    ensures run[i].threads[t].Calling? ==> run[i].lock == Some(t) && !run[i].threads[t].inner.InnerWait?
  {
    RunInv(run, i);
    assert ThreadInv(run[i], t);
  }

  /** Whoever holds the lock can always move, so nobody waits for it forever on a stuck holder. */
  lemma LockHolderCanStep(run: seq<State>, i: nat, t: Thread) returns (s': State)
    requires IsRun(run) && i < |run| && run[i].lock == Some(t)
    ensures Step(run[i], s', t)
  {
    RunInv(run, i);
    var s := run[i];
    assert ThreadInv(s, t);
    match s.threads[t] {
      case Compare(seen, caller) =>
        s' := At(s, t, if s.generation != seen then Release(seen, caller, true) else Claim(seen, caller));
      case Claim(seen, caller) => s' := At(s, t, Present(seen, caller)).(refreshing := Some(t));
      case Present(seen, caller) => s' := At(s, t, Calling(seen, caller, s.token, NoRequest));
      case Calling(seen, caller, presented, inner) =>
        match inner {
          case NoRequest => s' := At(s, t, Clear(seen, caller, false));
          case InnerCheck => s' := At(s, t, Calling(seen, caller, presented, InnerRead));
          case InnerRead => s' := At(s, t, Calling(seen, caller, presented, InnerApply(s.generation)));
          case InnerApply(read) => s' := At(s, t, Calling(seen, caller, presented, InnerSent(read)));
          case InnerSent(_) => s' := At(s, t, Calling(seen, caller, presented, NoRequest));
          case InnerRefresh(_) => s' := At(s, t, Calling(seen, caller, presented, NoRequest));
        }
      case Save(seen, caller, presented, renewed) =>
        s' := At(s, t, Adopt(seen, caller, presented, renewed, true)).(offered := s.offered + {renewed});
      case Adopt(seen, caller, _, renewed, saved) => s' := At(s, t, Count(seen, caller, saved)).(token := renewed);
      case Count(seen, caller, saved) => s' := At(s, t, Clear(seen, caller, saved)).(generation := s.generation + 1);
      case Clear(seen, caller, ok) => s' := At(s, t, Release(seen, caller, ok)).(refreshing := None);
      case Release(seen, caller, ok) =>
        s' := At(s, t, if ok then Back(caller) else Idle)
             .(lock := None, settled := if ok then s.settled + {seen} else s.settled);
    }
  }
}
