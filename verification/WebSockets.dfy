/**
 * JMAP over one WebSocket (src/jmap/push/websocket.py, websocket_aio.py and
 * websocket_client.py, section 4.3 of RFC 8887).
 */
module WebSockets {
  import opened Wrappers
  import opened Decimals

  // ---------------------------------------------------------------------------
  // Request ids
  // ---------------------------------------------------------------------------

  class WebSocketProtocol {
    var counter: nat
    var outstanding: set<string>

    constructor ()
      ensures counter == 0 && outstanding == {}
    {
      counter, outstanding := 0, {};
    }

    /** Counts on, past whatever a caller has named itself, to the first id that is free. */
    method NextRequestId() returns (id: string)
      modifies `counter
      ensures counter > old(counter) && id == Tagged('r', counter)
      ensures id !in outstanding
      ensures forall k :: old(counter) < k < counter ==> Tagged('r', k) in outstanding
    {
      ghost var ahead := outstanding;
      while true
        invariant counter >= old(counter) && ahead <= outstanding
        invariant forall k :: counter < k && Tagged('r', k) in outstanding ==> Tagged('r', k) in ahead
        invariant forall k :: old(counter) < k <= counter ==> Tagged('r', k) in outstanding
        decreases |ahead|
      {
        ghost var was := counter;
        counter := counter + 1;
        id := Tagged('r', counter);
        if id !in outstanding { return; }
        forall k | counter < k && Tagged('r', k) in outstanding ensures Tagged('r', k) in ahead - {id} {
          TaggedInjective('r', k, counter);
        }
        assert id in ahead;
        ahead := ahead - {id};
      }
    }

    /** Records a request about to be sent; an id still in flight is refused. */
    method EncodeRequest(requestId: Option<string>) returns (id: Option<string>)
      modifies this
      ensures id.None? <==> requestId.Some? && requestId.value != "" && requestId.value in old(outstanding)
      ensures id.None? ==> outstanding == old(outstanding) && counter == old(counter)
      ensures id.Some? ==> id.value !in old(outstanding) && outstanding == old(outstanding) + {id.value}
      ensures requestId.Some? && requestId.value != "" && id.Some? ==> id == requestId && counter == old(counter)
    {
      if requestId.Some? && requestId.value != "" {
        if requestId.value in outstanding { return None; }
        outstanding := outstanding + {requestId.value};
        return requestId;
      }
      var next := NextRequestId();
      outstanding := outstanding + {next};
      return Some(next);
    }

    /** Takes an id of the connection's own for a request about to be sent. */
    method BeginRequest() returns (id: string)
      modifies this
      ensures id !in old(outstanding) && outstanding == old(outstanding) + {id}
    {
      id := NextRequestId();
      outstanding := outstanding + {id};
    }

    method Settle(requestId: Option<string>)
      modifies `outstanding
      ensures outstanding == if requestId.Some? then old(outstanding) - {requestId.value} else old(outstanding)
    {
      if requestId.Some? { outstanding := outstanding - {requestId.value}; }
    }
  }

  // ---------------------------------------------------------------------------
  // Many requests in flight: the asynchronous client
  // ---------------------------------------------------------------------------

  type Task = nat

  // An id as it stands on the wire: the n-th of this connection, which is written `r<n>` (no two
  // numbers are written alike), or any other text a server might send.
  datatype Id = R(n: nat) | Other(text: string)

  // An answer, as the reader gets it: the id it names, if any, and what it says.
  datatype Answer = Answer(requestId: Option<Id>, body: nat)

  datatype Pc =
    | Start
    | Sending(id: Id)
    | Waiting(id: Id)
    | Answered(id: Id, answer: Answer)
    | Unanswered

  datatype State = State(
    counter: nat,
    outstanding: set<Id>,
    waiting: map<Id, Task>,
    signalled: set<Task>,
    answers: map<Id, Answer>,
    reading: bool,
    tasks: map<Task, Pc>,
    // History: who was given each id.
    owner: map<Id, Task>)

  ghost predicate Init(s: State) {
    && s.counter == 0 && s.outstanding == {} && s.waiting == map[] && s.signalled == {}
    && s.answers == map[] && s.reading && s.owner == map[]
    && forall t :: t in s.tasks ==> s.tasks[t] == Start
  }

  /** What `next_request_id` may return, as its method above promises. */
  ghost predicate NextId(s: State, counter: nat, id: Id) {
    && counter > s.counter && id == R(counter) && id !in s.outstanding
    && forall k :: s.counter < k < counter ==> R(k) in s.outstanding
  }

  /** A task takes an id and starts sending; with the socket gone it fails at once. */
  ghost predicate Begin(s: State, s': State, t: Task) {
    && t in s.tasks && s.tasks[t] == Start
    && exists counter, id :: NextId(s, counter, id)
         && var s1 := s.(counter := counter, outstanding := s.outstanding + {id}, owner := s.owner[id := t]);
            s' == if s.reading
                  then s1.(waiting := s.waiting[id := t], tasks := s.tasks[t := Sending(id)])
                  else s1.(waiting := s.waiting - {id}, tasks := s.tasks[t := Unanswered])
  }

  /** The frame went out, or it did not. */
  ghost predicate Send(s: State, s': State, t: Task) {
    && t in s.tasks && s.tasks[t].Sending?
    && var id := s.tasks[t].id;
       || s' == s.(tasks := s.tasks[t := Waiting(id)])
       || s' == s.(waiting := s.waiting - {id}, tasks := s.tasks[t := Unanswered])
  }

  /** A waiting task is woken by its event, with its answer or without one. */
  ghost predicate Wake(s: State, s': State, t: Task) {
    && t in s.tasks && s.tasks[t].Waiting? && t in s.signalled
    && var id := s.tasks[t].id;
       s' == s.(waiting := s.waiting - {id}, answers := s.answers - {id},
                tasks := s.tasks[t := if id in s.answers then Answered(id, s.answers[id]) else Unanswered])
  }

  /** The wait runs out, perhaps just after the event was set. */
  ghost predicate TimeOut(s: State, s': State, t: Task) {
    && t in s.tasks && s.tasks[t].Waiting?
    && s' == s.(waiting := s.waiting - {s.tasks[t].id}, tasks := s.tasks[t := Unanswered])
  }

  /** Which request an answer is for: the one it names, or the only one waiting. */
  ghost predicate AddressedTo(s: State, answer: Answer, id: Id) {
    match answer.requestId
    case Some(named) => named == id
    case None => s.waiting.Keys == {id}
  }

  /** The reader hands an answer to the exchange that waits for it, and drops one nobody waits for. */
  ghost predicate Deliver(s: State, s': State, answer: Answer) {
    && s.reading
    && var outstanding := match answer.requestId case Some(id) => s.outstanding - {id} case None => s.outstanding;
       || (exists id :: id in s.waiting && AddressedTo(s, answer, id)
             && s' == s.(outstanding := outstanding, answers := s.answers[id := answer],
                         signalled := s.signalled + {s.waiting[id]}))
       || ((forall id :: id in s.waiting ==> !AddressedTo(s, answer, id)) && s' == s.(outstanding := outstanding))
  }

  /** The socket ends: whoever waits is woken. */
  ghost predicate StopReading(s: State, s': State) {
    s.reading && s' == s.(reading := false, signalled := s.signalled + set id | id in s.waiting :: s.waiting[id])
  }

  /** The client dials again: counter, waiting ids and answers are those it had. */
  ghost predicate Reopen(s: State, s': State) {
    !s.reading && s' == s.(reading := true)
  }

  ghost predicate Next(s: State, s': State) {
    || (exists t :: Begin(s, s', t) || Send(s, s', t) || Wake(s, s', t) || TimeOut(s, s', t))
    || (exists answer :: Deliver(s, s', answer))
    || StopReading(s, s')
    || Reopen(s, s')
  }

  ghost predicate IsRun(run: seq<State>) {
    run != [] && Init(run[0]) && forall i :: 0 <= i < |run| - 1 ==> Next(run[i], run[i + 1])
  }

  predicate InFlight(pc: Pc) {
    pc.Sending? || pc.Waiting?
  }

  /** An answer kept under an id names that id, or none. */
  predicate Fits(answer: Answer, id: Id) {
    answer.requestId.None? || answer.requestId == Some(id)
  }

  /** Every id given out came from the counter, and those in flight were given out. */
  ghost predicate IdsInv(s: State) {
    && (forall id :: id in s.owner ==> id.R? && 1 <= id.n <= s.counter)
    && s.outstanding <= s.owner.Keys
  }

  /** The table of waiting ids and the exchanges in flight mirror each other. */
  ghost predicate FlightInv(s: State) {
    && (forall id :: id in s.waiting ==>
          id in s.owner && s.owner[id] == s.waiting[id] && s.waiting[id] in s.tasks
          && InFlight(s.tasks[s.waiting[id]]) && s.tasks[s.waiting[id]].id == id)
    && (forall t :: t in s.tasks && InFlight(s.tasks[t]) ==>
          s.tasks[t].id in s.waiting && s.waiting[s.tasks[t].id] == t)
  }

  /** Answers kept, and answers taken, belong to the exchange that was given their id. */
  ghost predicate AnswersInv(s: State) {
    && (forall id :: id in s.answers ==> id in s.owner && Fits(s.answers[id], id))
    && (forall t :: t in s.tasks && s.tasks[t].Answered? ==>
          s.tasks[t].id in s.owner && s.owner[s.tasks[t].id] == t && Fits(s.tasks[t].answer, s.tasks[t].id))
  }

  ghost predicate LossInv(s: State) {
    !s.reading ==> forall t :: t in s.tasks && InFlight(s.tasks[t]) ==> t in s.signalled
  }

  ghost predicate Inv(s: State) {
    IdsInv(s) && FlightInv(s) && AnswersInv(s) && LossInv(s)
  }

  /** The counter only moves on, so an id it produces is new. */
  lemma NewIdIsNew(s: State, counter: nat, id: Id)
    requires IdsInv(s) && NextId(s, counter, id)
    ensures id !in s.owner
  {}

  lemma BeginKeepsInv(s: State, s': State, t: Task)
    requires Inv(s) && Begin(s, s', t)
    ensures Inv(s')
  {
    var counter, id :| NextId(s, counter, id)
      && var s1 := s.(counter := counter, outstanding := s.outstanding + {id}, owner := s.owner[id := t]);
         s' == if s.reading
               then s1.(waiting := s.waiting[id := t], tasks := s.tasks[t := Sending(id)])
               else s1.(waiting := s.waiting - {id}, tasks := s.tasks[t := Unanswered]);
    NewIdIsNew(s, counter, id);
    assert IdsInv(s');
    assert AnswersInv(s') by { assert s'.owner == s.owner[id := t] && s'.answers == s.answers; }
    if s.reading { JoiningFlight(s, s', t, id); } else { NotJoiningFlight(s, s', t, id); }
  }

  lemma JoiningFlight(s: State, s': State, t: Task, id: Id)
    requires FlightInv(s) && LossInv(s) && s.reading && s'.reading && id !in s.owner
    requires t in s.tasks && s.tasks[t] == Start && s'.tasks == s.tasks[t := Sending(id)]
    requires s'.waiting == s.waiting[id := t] && s'.owner == s.owner[id := t]
    ensures FlightInv(s') && LossInv(s')
  {}

  lemma NotJoiningFlight(s: State, s': State, t: Task, id: Id)
    requires FlightInv(s) && LossInv(s) && s'.reading == s.reading && s'.signalled == s.signalled && id !in s.owner
    requires t in s.tasks && s.tasks[t] == Start && s'.tasks == s.tasks[t := Unanswered]
    requires s'.waiting == s.waiting - {id} && s'.owner == s.owner[id := t]
    ensures FlightInv(s') && LossInv(s')
  {
    assert s'.waiting == s.waiting;
  }

  /** A task leaving flight, with an answer that fits its id or with none. */
  lemma LandingKeepsInv(s: State, s': State, t: Task, landed: Pc, answers: map<Id, Answer>)
    requires Inv(s) && t in s.tasks && InFlight(s.tasks[t]) && !InFlight(landed)
    requires s' == s.(waiting := s.waiting - {s.tasks[t].id}, answers := answers, tasks := s.tasks[t := landed])
    requires answers.Keys <= s.answers.Keys && forall id :: id in answers ==> answers[id] == s.answers[id]
    requires landed.Answered? ==> landed.id == s.tasks[t].id && Fits(landed.answer, landed.id)
    ensures Inv(s')
  {
    var id := s.tasks[t].id;
    assert s.waiting[id] == t;
    forall u | u in s'.tasks && InFlight(s'.tasks[u])
      ensures s'.tasks[u].id in s'.waiting && s'.waiting[s'.tasks[u].id] == u
    {
      assert s.waiting[s.tasks[u].id] == u;
    }
    assert IdsInv(s') && FlightInv(s');
    assert AnswersInv(s') && LossInv(s');
  }

  lemma TaskKeepsInv(s: State, s': State, t: Task)
    requires Inv(s) && (Send(s, s', t) || Wake(s, s', t) || TimeOut(s, s', t))
    ensures Inv(s')
  {
    var id := s.tasks[t].id;
    if s'.tasks[t].Waiting? {
      assert s' == s.(tasks := s.tasks[t := Waiting(id)]);
      assert FlightInv(s') && AnswersInv(s');
    } else {
      LandingKeepsInv(s, s', t, s'.tasks[t], s'.answers);
    }
  }

  lemma DeliverKeepsInv(s: State, s': State, answer: Answer)
    requires Inv(s) && Deliver(s, s', answer)
    ensures Inv(s')
  {
    assert IdsInv(s') && FlightInv(s');
    assert AnswersInv(s');
  }

  lemma StopKeepsInv(s: State, s': State)
    requires Inv(s) && StopReading(s, s')
    ensures Inv(s')
  {
    forall t | t in s'.tasks && InFlight(s'.tasks[t]) ensures t in s'.signalled {
      assert s.waiting[s.tasks[t].id] == t;
    }
  }

  lemma {:induction false} RunInv(run: seq<State>, i: nat)
    requires IsRun(run) && i < |run|
    ensures Inv(run[i])
  {
    if i > 0 {
      RunInv(run, i - 1);
      var s, s' := run[i - 1], run[i];
      assert Next(run[i - 1], run[i - 1 + 1]);
      if t :| Begin(s, s', t) { BeginKeepsInv(s, s', t); }
      else if t :| Send(s, s', t) || Wake(s, s', t) || TimeOut(s, s', t) { TaskKeepsInv(s, s', t); }
      else if answer :| Deliver(s, s', answer) { DeliverKeepsInv(s, s', answer); }
      else if StopReading(s, s') { StopKeepsInv(s, s'); }
      else { assert Reopen(s, s'); }
    }
  }

  /** No id is ever given out twice, whatever was sent, answered, lost or dialled again before. */
  lemma IdsNeverRepeat(run: seq<State>, i: nat, t: Task)
    requires IsRun(run) && i + 1 < |run| && Begin(run[i], run[i + 1], t)
    ensures exists id :: id !in run[i].owner && run[i + 1].owner == run[i].owner[id := t]
  {
    RunInv(run, i);
    var counter, id :| NextId(run[i], counter, id) && run[i + 1].owner == run[i].owner[id := t];
    NewIdIsNew(run[i], counter, id);
  }

  /** An answer naming an id only ever reaches the exchange that sent it. */
  lemma AnswersReachTheirSender(run: seq<State>, i: nat, t: Task, id: Id)
    requires IsRun(run) && i < |run| && t in run[i].tasks && run[i].tasks[t].Answered?
    requires run[i].tasks[t].answer.requestId == Some(id)
    ensures run[i].tasks[t].id == id && id in run[i].owner && run[i].owner[id] == t
  {
    RunInv(run, i);
  }

  /** An answer to a request nobody waits for any more changes nothing a task can see. */
  lemma LateAnswersAreDropped(run: seq<State>, i: nat, answer: Answer, id: Id)
    requires IsRun(run) && i + 1 < |run| && Deliver(run[i], run[i + 1], answer)
    requires answer.requestId == Some(id)
    requires forall t :: t in run[i].tasks && InFlight(run[i].tasks[t]) ==> run[i].tasks[t].id != id
    ensures run[i + 1] == run[i].(outstanding := run[i].outstanding - {id})
  {
    RunInv(run, i);
    assert id !in run[i].waiting;
  }

  /** Once the socket is lost every task still waiting has been woken: none waits for nothing. */
  lemma LossWakesEveryone(run: seq<State>, i: nat, t: Task)
    requires IsRun(run) && i < |run| && !run[i].reading
    requires t in run[i].tasks && run[i].tasks[t].Waiting?
    ensures exists s' :: Wake(run[i], s', t)
  {
    RunInv(run, i);
    var s, id := run[i], run[i].tasks[t].id;
    var s' := s.(waiting := s.waiting - {id}, answers := s.answers - {id},
                 tasks := s.tasks[t := if id in s.answers then Answered(id, s.answers[id]) else Unanswered]);
    assert Wake(s, s', t);
  }

  // ---------------------------------------------------------------------------
  // One request at a time: the synchronous client
  // ---------------------------------------------------------------------------

  // An answer with the id it names, as text.
  datatype NamedAnswer = NamedAnswer(requestId: Option<string>, body: nat)

  // What reading the socket gives; Silence is a read that times out.
  datatype Received = Change(change: nat) | Reply(answer: NamedAnswer) | Silence | NormalClose | Loss

  datatype ExchangeEnd = Done(answer: NamedAnswer) | NotInFlight | NoAnswer | Closed | Unsent

  function Changes(received: seq<Received>): seq<nat> {
    if received == [] then []
    else
      var last := received[|received| - 1];
      Changes(received[..|received| - 1]) + Changed(last)
  }

  predicate AllChanges(received: seq<Received>) {
    forall k :: 0 <= k < |received| ==> received[k].Change?
  }

  /** The request id an answer names, if any. */
  function Named(answer: NamedAnswer): set<string> {
    if answer.requestId.Some? then {answer.requestId.value} else {}
  }

  function Changed(message: Received): seq<nat> {
    if message.Change? then [message.change] else []
  }

  class WebSocketClient {
    const protocol: WebSocketProtocol
    var pending: seq<nat>
    var open: bool
    // Every change read from the socket and every change handed out, since the client was made.
    ghost var received: seq<nat>
    ghost var yielded: seq<nat>

    /** Changes handed out and changes queued are exactly the changes received, in order. */
    ghost predicate Valid()
      reads `pending, `received, `yielded
    {
      yielded + pending == received
    }

    constructor ()
      ensures Valid() && fresh(protocol) && pending == [] && received == [] && open
    {
      protocol := new WebSocketProtocol();
      pending, open, received, yielded := [], true, [], [];
    }

    /** A change that arrives while a request waits is queued. */
    method Queue(change: nat)
      requires Valid()
      modifies `pending, `received
      ensures Valid() && received == old(received) + [change]
    {
      assert yielded + (pending + [change]) == (yielded + pending) + [change];
      pending := pending + [change];
      received := received + [change];
    }

    /** Reads until something other than a change comes, queueing the changes before it. */
    method ReadPastChanges(incoming: seq<Received>) returns (used: nat)
      requires Valid()
      modifies `pending, `received
      ensures Valid() && used <= |incoming|
      ensures received == old(received) + Changes(incoming[..used])
      ensures forall k :: 0 <= k < used ==> incoming[k].Change?
      ensures used < |incoming| ==> !incoming[used].Change?
    {
      used := 0;
      ghost var sofar: seq<nat> := [];
      while used < |incoming| && incoming[used].Change?
        invariant Valid() && used <= |incoming|
        invariant sofar == Changes(incoming[..used]) && received == old(received) + sofar
        invariant forall k :: 0 <= k < used ==> incoming[k].Change?
      {
        ChangesSnoc(incoming, used);
        var change := incoming[used].change;
        Queue(change);
        assert (old(received) + sofar) + [change] == old(received) + (sofar + [change]);
        sofar := sofar + [change];
        used := used + 1;
      }
    }

    /**
     * Sends a request and reads until its answer, keeping the changes that come first; a
     * request that cannot be sent closes the socket.
     */
    method Exchange(incoming: seq<Received>, sends: bool) returns (end: ExchangeEnd, used: nat, id: string)
      requires Valid() && open
      modifies this, protocol
      ensures Valid() && used <= |incoming| && yielded == old(yielded)
      ensures received == old(received) + Changes(incoming[..used])
      ensures id !in old(protocol.outstanding)
      ensures end == Unsent <==> !sends
      ensures !sends ==> used == 0
      ensures sends && AllChanges(incoming) ==> end == NoAnswer && used == |incoming|
      ensures sends && !AllChanges(incoming) ==>
        && used > 0 && AllChanges(incoming[..used - 1]) && !incoming[used - 1].Change?
        && (incoming[used - 1].Reply? ==>
              var answer := incoming[used - 1].answer;
              end == if answer.requestId.None? || answer.requestId == Some(id) then Done(answer) else NotInFlight)
        && (end.Done? || end.NotInFlight? ==> incoming[used - 1].Reply?)
        && (end == NoAnswer <==> incoming[used - 1].Silence?)
      ensures open <==> end.Done? || end == NoAnswer
      ensures protocol.outstanding == old(protocol.outstanding) + {id}
        - (if used > 0 && incoming[used - 1].Reply? then Named(incoming[used - 1].answer) else {})
    {
      id := protocol.BeginRequest();
      if !sends {
        end, used, open := Unsent, 0, false;
        return;
      }
      used := ReadPastChanges(incoming);
      if used == |incoming| { return NoAnswer, used, id; }
      var message := incoming[used];
      ChangesSnoc(incoming, used);
      used := used + 1;
      if message.Reply? {
        var answer := message.answer;
        protocol.Settle(answer.requestId);
        if answer.requestId == Some(id) || answer.requestId == None {
          end := Done(answer);
        } else {
          end, open := NotInFlight, false;
        }
      } else if message.Silence? {
        end := NoAnswer;
      } else {
        end, open := Closed, false;
      }
    }

    /** Hands out the next change, those queued during requests first; None when the stream is over. */
    method NextChange(incoming: Received) returns (change: Option<nat>, used: bool)
      requires Valid() && open
      modifies this
      ensures Valid() && received == old(received) + (if used then Changed(incoming) else [])
      ensures yielded == old(yielded) + (if change.Some? then [change.value] else [])
      ensures used <==> old(pending) == []
      ensures old(pending) != [] ==> change == Some(old(pending)[0])
      ensures used && incoming.Change? ==> change == Some(incoming.change)
      ensures used && !incoming.Change? && !incoming.Silence? ==> !open
    {
      change, used := None, pending == [];
      if pending != [] {
        change := Some(pending[0]);
        assert (yielded + [pending[0]]) + pending[1..] == yielded + pending;
        yielded, pending := yielded + [pending[0]], pending[1..];
      } else if incoming.Change? {
        change := Some(incoming.change);
        assert yielded == received;
        received, yielded := received + [incoming.change], yielded + [incoming.change];
      } else if !incoming.Silence? {
        open := false;
      }
    }
  }

  lemma ChangesSnoc(incoming: seq<Received>, used: nat)
    requires used < |incoming|
    ensures Changes(incoming[..used + 1]) == Changes(incoming[..used]) + Changed(incoming[used])
    ensures incoming[..used + 1] == incoming[..used] + [incoming[used]]
  {
    assert incoming[..used + 1][..used] == incoming[..used];
  }
}
