/** The `Expect: 100-continue` exchange as a product of client and server, for any number
    of requests on one connection (src/http.cpp).  The client writes requests and reads
    responses in any order its caller chooses; the server answers in order and may refuse
    a head or a body, after which it closes.  A unit is one byte of a request body. */
module ExpectContinue {
  import opened Text

  /** What the two sides make of one request: whether the client waits, whether the server
      asks for the body and whether it must refuse; how many bytes of body the client sends
      and how many the server takes for it. */
  datatype Exchange = Exchange(waits: bool, asks: bool, refused: bool, sent: nat, taken: nat)

  predicate Alike(e: Exchange) {
    e.waits == e.asks && (e.waits ==> e.taken > 0) && e.sent == e.taken
  }

  ghost predicate Agreed(es: seq<Exchange>) {
    forall i :: 0 <= i < |es| ==> Alike(es[i])
  }

  datatype Up = Head(id: nat) | Unit(id: nat)

  datatype Down = Interim(id: nat) | Final(id: nat)

  datatype Client = Ready | Waiting(id: nat) | Sending(id: nat, left: nat) | Reading | Broken

  datatype Server = Listening | Taking(id: nat, left: nat) | Closed

  /** `owed`: requests begun whose response was not yet returned; `heard`: requests for
      which the waiting client read an interim response. */
  datatype State = State(client: Client, server: Server, up: seq<Up>, down: seq<Down>,
                         next: nat, owed: seq<nat>, prefetched: Option<nat>,
                         returned: seq<nat>, heard: set<nat>)

  const INITIAL := State(Ready, Listening, [], [], 0, [], None, [], {})

  datatype Step = Begin | SendUnit | EndWrite | HearInterim | BeginRead | HearResponse | HearEnd
                | TakeHead | RefuseHead | TakeUnit | RefuseBody | Respond(close: bool)

  predicate Enabled(es: seq<Exchange>, s: State, step: Step) {
    match step
    case Begin => s.client.Ready? && s.next < |es|
    case SendUnit => s.client.Sending? && s.client.left > 0
    case EndWrite => s.client.Sending? && s.client.left == 0
    case HearInterim => s.client.Waiting? && s.down != [] && s.client.id < |es|
    case BeginRead => s.client.Ready? && s.owed != []
    case HearResponse => s.client.Reading? && s.down != [] && s.owed != []
    case HearEnd => (s.client.Waiting? || s.client.Reading?) && s.down == [] && s.server.Closed?
    case TakeHead => s.server.Listening? && s.up != [] && s.up[0].Head? && s.up[0].id < |es| && !es[s.up[0].id].refused
    case RefuseHead => s.server.Listening? && s.up != []
    case TakeUnit => s.server.Taking? && s.server.left > 0 && s.up != []
    case RefuseBody => s.server.Taking?
    case Respond(_) => s.server.Taking? && s.server.left == 0
  }

  function Apply(es: seq<Exchange>, s: State, step: Step): State
    requires Enabled(es, s, step)
  {
    match step
    case Begin =>
      var e := es[s.next];
      s.(client := if e.waits then Waiting(s.next) else Sending(s.next, e.sent),
         up := s.up + [Head(s.next)], owed := s.owed + [s.next], next := s.next + 1)
    case SendUnit =>
      s.(client := Sending(s.client.id, s.client.left - 1), up := s.up + [Unit(s.client.id)])
    case EndWrite =>
      s.(client := Ready)
    case HearInterim =>
      var s' := s.(down := s.down[1..]);
      if s.down[0].Interim? then
        s'.(client := Sending(s.client.id, es[s.client.id].sent),
            heard := s.heard + {s.down[0].id})
      else
        s'.(client := Ready, prefetched := Some(s.down[0].id))
    case BeginRead =>
      match s.prefetched {
        case Some(id) => s.(prefetched := None, returned := s.returned + [id], owed := s.owed[1..])
        case None => s.(client := Reading)
      }
    case HearResponse =>
      var s' := s.(down := s.down[1..]);
      if s.down[0].Interim? then s'
      else s'.(client := Ready, returned := s.returned + [s.down[0].id], owed := s.owed[1..])
    case HearEnd =>
      s.(client := Broken)
    case TakeHead =>
      var id := s.up[0].id;
      s.(server := Taking(id, es[id].taken), up := s.up[1..],
         down := if es[id].asks then s.down + [Interim(id)] else s.down)
    case RefuseHead =>
      s.(server := Closed, up := s.up[1..], down := s.down + [Final(s.up[0].id)])
    case TakeUnit =>
      s.(server := Taking(s.server.id, s.server.left - 1), up := s.up[1..])
    case RefuseBody =>
      s.(server := Closed, down := s.down + [Final(s.server.id)])
    case Respond(close) =>
      s.(server := if close then Closed else Listening, down := s.down + [Final(s.server.id)])
  }

  /** What the caller must do: start a request that waits only when no response is still
      to be read from the connection. */
  predicate Disciplined(es: seq<Exchange>, s: State, step: Step) {
    step.Begin? && s.next < |es| && es[s.next].waits ==> s.owed == Held(s.prefetched)
  }

  ghost predicate Runs(es: seq<Exchange>, s: State, steps: seq<Step>, t: State)
    decreases |steps|
  {
    if steps == [] then t == s
    else Enabled(es, s, steps[0]) && Disciplined(es, s, steps[0])
         && Runs(es, Apply(es, s, steps[0]), steps[1..], t)
  }

  ghost predicate Reachable(es: seq<Exchange>, s: State) {
    exists steps :: Runs(es, INITIAL, steps, s)
  }

  /** Both sides wait and nothing is on its way to either. */
  predicate Deadlocked(s: State) {
    && (s.client.Waiting? || s.client.Reading?) && s.down == []
    && (s.server.Listening? || (s.server.Taking? && s.server.left > 0)) && s.up == []
  }

  // The invariant, part by part.

  function Upto(n: nat): seq<nat> {
    seq(n, i => i)
  }

  function Finals(down: seq<Down>): seq<nat> {
    if down == [] then []
    else (if down[0].Final? then [down[0].id] else []) + Finals(down[1..])
  }

  function Heads(up: seq<Up>): seq<nat> {
    if up == [] then []
    else (if up[0].Head? then [up[0].id] else []) + Heads(up[1..])
  }

  function Held(prefetched: Option<nat>): seq<nat> {
    match prefetched case Some(id) => [id] case None => []
  }

  function Current(server: Server): seq<nat> {
    if server.Taking? then [server.id] else []
  }

  function Due(server: Server): nat {
    if server.Taking? then server.left else 0
  }

  function Unsent(es: seq<Exchange>, client: Client): nat {
    match client
    case Sending(_, left) => left
    case Waiting(id) => if id < |es| then es[id].sent else 0
    case _ => 0
  }

  /** The bytes on their way up are the rest of the body being taken, then whole requests,
      the last of which lacks what the client has yet to send. */
  predicate Fed(es: seq<Exchange>, due: nat, up: seq<Up>, unsent: nat)
    decreases |up|
  {
    if up == [] then due == unsent
    else if due > 0 then up[0].Unit? && Fed(es, due - 1, up[1..], unsent)
    else up[0].Head? && up[0].id < |es| && Fed(es, es[up[0].id].taken, up[1..], unsent)
  }

  /** Responses not yet returned: held, then on their way, then to come, in request order. */
  ghost predicate Ledger(s: State) {
    && s.returned + s.owed == Upto(s.next)
    && Held(s.prefetched) + Finals(s.down) <= s.owed
    && (!s.server.Closed? ==>
          s.owed == Held(s.prefetched) + Finals(s.down) + (Current(s.server) + Heads(s.up)))
  }

  ghost predicate NoInterim(down: seq<Down>) {
    forall i :: 0 <= i < |down| ==> down[i].Final?
  }

  ghost predicate NoneWaits(es: seq<Exchange>, up: seq<Up>) {
    forall i :: 0 <= i < |up| && up[i].Head? ==> up[i].id < |es| && !es[up[i].id].waits
  }

  /** While the client does not wait, no interim response is on its way or to come. */
  ghost predicate Apart(es: seq<Exchange>, s: State) {
    NoInterim(s.down) && (!s.server.Closed? ==> NoneWaits(es, s.up))
  }

  /** A waiting client and the server are at one of three points of one exchange. */
  ghost predicate InStep(es: seq<Exchange>, id: nat, s: State) {
    && id < |es| && es[id].waits && s.owed == Held(s.prefetched) + [id]
    && match s.server {
         case Listening => s.up == [Head(id)] && s.down == []
         case Taking(at, left) => at == id && left == es[id].taken && s.up == [] && s.down == [Interim(id)]
         case Closed => s.down == [] || s.down == [Final(id)] || s.down == [Interim(id), Final(id)]
       }
  }

  ghost predicate Turns(es: seq<Exchange>, s: State) {
    && (s.prefetched.Some? ==> s.server.Closed? && s.down == [])
    && match s.client {
         case Waiting(id) => InStep(es, id, s)
         case Reading => Apart(es, s) && s.prefetched == None && s.owed != []
         case _ => Apart(es, s)
       }
  }

  ghost predicate Cleared(es: seq<Exchange>, s: State) {
    && (s.client.Sending? ==> s.client.id < |es| && (es[s.client.id].waits ==> s.client.id in s.heard))
    && (forall i :: 0 <= i < |s.up| && s.up[i].Unit? ==> s.up[i].id < |es| && (es[s.up[i].id].waits ==> s.up[i].id in s.heard))
  }

  ghost predicate Inv(es: seq<Exchange>, s: State) {
    && s.next <= |es| && Ledger(s) && Turns(es, s) && Cleared(es, s)
    && Feeding(es, s)
  }

  // How the parts move under one message more at either end.

  lemma {:induction false} FinalsAppend(down: seq<Down>, m: Down)
    ensures Finals(down + [m]) == Finals(down) + Finals([m])
  {
    if down != [] {
      assert (down + [m])[1..] == down[1..] + [m];
      FinalsAppend(down[1..], m);
    } else {
      assert [] + [m] == [m];
    }
  }

  lemma {:induction false} HeadsAppend(up: seq<Up>, m: Up)
    ensures Heads(up + [m]) == Heads(up) + Heads([m])
  {
    if up != [] {
      assert (up + [m])[1..] == up[1..] + [m];
      HeadsAppend(up[1..], m);
    } else {
      assert [] + [m] == [m];
    }
  }

  lemma {:induction false} FedUnit(es: seq<Exchange>, due: nat, up: seq<Up>, unsent: nat, id: nat)
    requires Fed(es, due, up, unsent) && unsent > 0
    ensures Fed(es, due, up + [Unit(id)], unsent - 1)
    decreases |up|
  {
    if up != [] {
      assert (up + [Unit(id)])[1..] == up[1..] + [Unit(id)];
      FedUnit(es, if due > 0 then due - 1 else es[up[0].id].taken, up[1..], unsent, id);
    }
  }

  lemma {:induction false} FedHead(es: seq<Exchange>, due: nat, up: seq<Up>, id: nat)
    requires Fed(es, due, up, 0) && id < |es|
    ensures Fed(es, due, up + [Head(id)], es[id].taken)
    decreases |up|
  {
    if up != [] {
      assert (up + [Head(id)])[1..] == up[1..] + [Head(id)];
      FedHead(es, if due > 0 then due - 1 else es[up[0].id].taken, up[1..], id);
    }
  }

  ghost predicate Feeding(es: seq<Exchange>, s: State) {
    !s.server.Closed? ==> Fed(es, Due(s.server), s.up, Unsent(es, s.client))
  }

  lemma KeepsFeeding(es: seq<Exchange>, s: State, step: Step)
    requires Feeding(es, s) && Turns(es, s) && Enabled(es, s, step) && Agreed(es)
    ensures Feeding(es, Apply(es, s, step))
  {
    hide NoInterim, NoneWaits;
    if !s.server.Closed? {
      match step
      case Begin => FedHead(es, Due(s.server), s.up, s.next);
      case SendUnit => FedUnit(es, Due(s.server), s.up, s.client.left, s.client.id);
      case _ =>
    }
  }

  /** When nothing is to be read, nothing is on its way and the server listens or has closed. */
  lemma NothingOnItsWay(es: seq<Exchange>, s: State)
    requires Ledger(s) && Feeding(es, s) && s.client.Ready? && s.owed == Held(s.prefetched) && NoInterim(s.down)
    ensures s.down == [] && (!s.server.Closed? ==> s.server.Listening? && s.up == [])
  {
    assert |Finals(s.down)| == 0;
    assert !s.server.Closed? ==> |Current(s.server) + Heads(s.up)| == 0;
  }

  predicate Serves(step: Step) {
    step.TakeHead? || step.TakeUnit? || step.RefuseHead? || step.RefuseBody? || step.Respond?
  }

  lemma KeepsTurnsServing(es: seq<Exchange>, s: State, step: Step)
    requires Turns(es, s) && Enabled(es, s, step) && Agreed(es) && Serves(step)
    ensures Turns(es, Apply(es, s, step))
  {
  }

  lemma KeepsTurnsCalling(es: seq<Exchange>, s: State, step: Step)
    requires Turns(es, s) && Enabled(es, s, step) && Agreed(es) && Disciplined(es, s, step) && !Serves(step)
    requires step.Begin? ==> Ledger(s) && Feeding(es, s)
    ensures Turns(es, Apply(es, s, step))
  {
    hide Fed, Finals, Heads, Ledger, Feeding;
    if step.Begin? && es[s.next].waits {
      NothingOnItsWay(es, s);
      assert [] + [Head(s.next)] == [Head(s.next)] && [] + [s.next] == [s.next];
    }
  }

  lemma KeepsCleared(es: seq<Exchange>, s: State, step: Step)
    requires Turns(es, s) && Cleared(es, s) && Enabled(es, s, step)
    ensures Cleared(es, Apply(es, s, step))
  {
  }

  /** The first response still to come is answered: it moves behind those on their way. */
  lemma Answered(held: seq<nat>, finals: seq<nat>, id: nat, rest: seq<nat>)
    ensures held + finals + ([id] + rest) == held + (finals + [id]) + ([] + rest)
    ensures held + (finals + [id]) <= held + finals + ([id] + rest)
  {
    assert held + (finals + [id]) + ([] + rest) == held + finals + ([id] + rest);
  }

  lemma LedgerTakeHead(es: seq<Exchange>, s: State)
    requires Ledger(s) && Enabled(es, s, TakeHead)
    ensures Ledger(Apply(es, s, TakeHead))
  {
    var id := s.up[0].id;
    FinalsAppend(s.down, Interim(id));
    assert Finals([Interim(id)]) == [] && Finals(s.down) + [] == Finals(s.down);
    assert Heads(s.up) == [id] + Heads(s.up[1..]) && [] + Heads(s.up) == Heads(s.up);
    hide Finals, Heads;
  }

  lemma LedgerTakeUnit(es: seq<Exchange>, s: State)
    requires Ledger(s) && Feeding(es, s) && Enabled(es, s, TakeUnit)
    ensures Ledger(Apply(es, s, TakeUnit))
  {
    assert Heads(s.up) == [] + Heads(s.up[1..]) == Heads(s.up[1..]);
    hide Finals, Heads, Fed, Feeding;
  }

  lemma LedgerAnswer(es: seq<Exchange>, s: State, step: Step)
    requires Ledger(s) && Feeding(es, s) && Enabled(es, s, step)
    requires step.RefuseHead? || step.RefuseBody? || step.Respond?
    ensures Ledger(Apply(es, s, step))
  {
    var id := if s.server.Taking? then s.server.id else s.up[0].id;
    var rest := Heads(if s.server.Taking? then s.up else s.up[1..]);
    assert Current(s.server) + Heads(s.up) == [id] + rest;
    FinalsAppend(s.down, Final(id));
    assert Finals([Final(id)]) == [id];
    Answered(Held(s.prefetched), Finals(s.down), id, rest);
    hide Fed, Finals, Heads, Feeding;
  }

  /** A request begun is owed last. */
  lemma LedgerBegin(es: seq<Exchange>, s: State)
    requires Ledger(s) && Enabled(es, s, Begin)
    ensures Ledger(Apply(es, s, Begin))
  {
    HeadsAppend(s.up, Head(s.next));
    assert s.returned + (s.owed + [s.next]) == Upto(s.next) + [s.next] == Upto(s.next + 1);
  }

  lemma LedgerSend(es: seq<Exchange>, s: State)
    requires Ledger(s) && Enabled(es, s, SendUnit)
    ensures Ledger(Apply(es, s, SendUnit))
  {
    HeadsAppend(s.up, Unit(s.client.id));
  }

  lemma LedgerInterim(es: seq<Exchange>, s: State)
    requires Ledger(s) && Turns(es, s) && Enabled(es, s, HearInterim)
    ensures Ledger(Apply(es, s, HearInterim))
  {
  }

  /** The response returned is the first one owed. */
  lemma Returned(returned: seq<nat>, owed: seq<nat>, id: nat, finals: seq<nat>)
    requires [id] + finals <= owed
    ensures owed[0] == id && finals <= owed[1..]
    ensures returned + owed == returned + [id] + owed[1..]
  {
    assert owed[0] == ([id] + finals)[0];
    assert finals == ([id] + finals)[1..];
  }

  lemma LedgerPrefetched(es: seq<Exchange>, s: State)
    requires Ledger(s) && Enabled(es, s, BeginRead)
    ensures Ledger(Apply(es, s, BeginRead))
  {
    hide Finals, Heads;
    if s.prefetched.Some? {
      Returned(s.returned, s.owed, s.prefetched.value, Finals(s.down));
    }
  }

  lemma LedgerResponse(es: seq<Exchange>, s: State)
    requires Ledger(s) && Turns(es, s) && Enabled(es, s, HearResponse)
    ensures Ledger(Apply(es, s, HearResponse))
  {
    var id, finals := s.down[0].id, Finals(s.down[1..]);
    var rest := Current(s.server) + Heads(s.up);
    assert Held(s.prefetched) + Finals(s.down) == [id] + finals;
    Returned(s.returned, s.owed, id, finals);
    assert [id] + finals + rest == [id] + (finals + rest);
    assert [] + finals == finals;
    hide Heads, Finals, NoInterim, NoneWaits;
  }

  lemma KeepsInv(es: seq<Exchange>, s: State, step: Step)
    requires Inv(es, s) && Enabled(es, s, step) && Agreed(es) && Disciplined(es, s, step)
    ensures Inv(es, Apply(es, s, step))
  {
    KeepsFeeding(es, s, step);
    if Serves(step) {
      KeepsTurnsServing(es, s, step);
    } else {
      KeepsTurnsCalling(es, s, step);
    }
    KeepsCleared(es, s, step);
    hide Feeding, Turns, Cleared;
    match step
    case Begin => LedgerBegin(es, s);
    case SendUnit => LedgerSend(es, s);
    case HearInterim => LedgerInterim(es, s);
    case BeginRead => LedgerPrefetched(es, s);
    case HearResponse => LedgerResponse(es, s);
    case TakeHead => LedgerTakeHead(es, s);
    case TakeUnit => LedgerTakeUnit(es, s);
    case RefuseHead => LedgerAnswer(es, s, step);
    case RefuseBody => LedgerAnswer(es, s, step);
    case Respond(_) => LedgerAnswer(es, s, step);
    case _ =>
  }

  lemma {:induction false} KeptAlong(es: seq<Exchange>, s: State, steps: seq<Step>, t: State)
    requires Inv(es, s) && Agreed(es) && Runs(es, s, steps, t)
    ensures Inv(es, t)
    decreases |steps|
  {
    if steps != [] {
      KeepsInv(es, s, steps[0]);
      KeptAlong(es, Apply(es, s, steps[0]), steps[1..], t);
    }
  }

  lemma InvReached(es: seq<Exchange>, s: State)
    requires Agreed(es) && Reachable(es, s)
    ensures Inv(es, s)
  {
    var steps :| Runs(es, INITIAL, steps, s);
    KeptAlong(es, INITIAL, steps, s);
  }

  // What every run keeps.

  /** Never do both sides wait with nothing on its way to either. */
  lemma NoDeadlock(es: seq<Exchange>, s: State)
    requires Agreed(es) && Reachable(es, s)
    ensures !Deadlocked(s)
  {
    InvReached(es, s);
  }

  /** No byte of a body held back goes out before its own 100 was read. */
  lemma BodyAfterContinue(es: seq<Exchange>, s: State, i: nat)
    requires Agreed(es) && Reachable(es, s)
    requires i < |s.up| && s.up[i].Unit?
    ensures s.up[i].id < |es| && (es[s.up[i].id].waits ==> s.up[i].id in s.heard)
  {
    InvReached(es, s);
  }

  /** The k-th read returns the response to the k-th request: none is lost, repeated or
      exchanged, and one read ahead while waiting is returned by exactly one later read. */
  lemma ReturnedInOrder(es: seq<Exchange>, s: State)
    requires Agreed(es) && Reachable(es, s)
    ensures s.returned == Upto(|s.returned|)
    ensures s.prefetched.Some? ==> s.prefetched.value == |s.returned|
    ensures forall i :: 0 <= i < |s.down| && s.down[i].Final? ==> |s.returned| <= s.down[i].id < s.next
  {
    InvReached(es, s);
    assert s.returned == (s.returned + s.owed)[..|s.returned|] == Upto(s.next)[..|s.returned|];
    if s.prefetched.Some? {
      assert s.owed[0] == (Held(s.prefetched) + Finals(s.down))[0];
      OwedLater(s, 0);
    }
    forall i | 0 <= i < |s.down| && s.down[i].Final? ensures |s.returned| <= s.down[i].id < s.next {
      var k := FinalAt(s.down, i);
      var all := Held(s.prefetched) + Finals(s.down);
      assert all[|Held(s.prefetched)| + k] == s.down[i].id;
      OwedLater(s, |Held(s.prefetched)| + k);
    }
  }

  lemma OwedLater(s: State, k: nat)
    requires s.returned + s.owed == Upto(s.next) && k < |s.owed|
    ensures s.owed[k] == |s.returned| + k < s.next
  {
    assert (s.returned + s.owed)[|s.returned| + k] == s.owed[k];
    assert |s.returned + s.owed| == s.next;
  }

  lemma {:induction false} FinalAt(down: seq<Down>, i: nat) returns (k: nat)
    requires i < |down| && down[i].Final?
    ensures k < |Finals(down)| && Finals(down)[k] == down[i].id
  {
    if i == 0 {
      k := 0;
    } else {
      k := FinalAt(down[1..], i - 1);
      k := k + |Finals(down)| - |Finals(down[1..])|;
    }
  }

  /** The first message a waiting client hears is about its own request ... */
  lemma HearsItsOwn(es: seq<Exchange>, s: State)
    requires Agreed(es) && Reachable(es, s) && s.client.Waiting? && s.down != []
    ensures s.down[0].id == s.client.id
  {
    InvReached(es, s);
  }

  // ... and without the discipline it never is.

  /** The client waits, but what it will hear first answers an older request. */
  predicate Crossed(es: seq<Exchange>, s: State) {
    && s.client.Waiting?
    && if s.down != [] then s.down[0].Final? && s.down[0].id < s.client.id
       else match s.server {
         case Taking(id, _) => id < s.client.id
         case Listening => s.up != [] && s.up[0].id < s.client.id && (s.up[0].id < |es| ==> !es[s.up[0].id].asks)
         case Closed => true
       }
  }

  /** Waiting behind an unread response is always crossed, however the server goes on. */
  lemma UndisciplinedCrosses(es: seq<Exchange>, s: State)
    requires Agreed(es) && Reachable(es, s) && Enabled(es, s, Begin) && es[s.next].waits
    ensures !Disciplined(es, s, Begin) ==> Crossed(es, Apply(es, s, Begin))
  {
    InvReached(es, s);
    if s.owed != Held(s.prefetched) {
      forall k | 0 <= k < |s.owed| ensures s.owed[k] < s.next {
        OwedLater(s, k);
      }
      FirstToCome(es, s);
    }
  }

  lemma FirstToCome(es: seq<Exchange>, s: State)
    requires Inv(es, s) && Agreed(es) && s.client.Ready? && s.owed != Held(s.prefetched)
    ensures s.down != [] ==> s.down[0].Final? && s.down[0].id in s.owed
    ensures s.down == [] ==>
              match s.server
              case Taking(id, _) => id in s.owed
              case Listening => s.up != [] && s.up[0].id in s.owed && s.up[0].id < |es| && !es[s.up[0].id].asks
              case Closed => true
  {
    var held := Held(s.prefetched);
    if s.down != [] {
      assert Finals(s.down)[0] == s.down[0].id;
      assert (held + Finals(s.down))[|held|] == s.down[0].id;
    } else if !s.server.Closed? {
      assert held + Finals(s.down) == held;
      var rest := Current(s.server) + Heads(s.up);
      assert s.owed == held + rest;
      assert rest != [] && rest[0] == s.owed[|held|];
    }
  }

  lemma StaysCrossed(es: seq<Exchange>, s: State, step: Step)
    requires Crossed(es, s) && Enabled(es, s, step)
    ensures var t := Apply(es, s, step);
            if Serves(step) then Crossed(es, t) else t.client.Ready? || t.client.Broken?
  {
  }

  /** Runs of a caller that need not keep the discipline. */
  ghost predicate Follows(es: seq<Exchange>, s: State, steps: seq<Step>, t: State)
    decreases |steps|
  {
    if steps == [] then t == s
    else Enabled(es, s, steps[0]) && Follows(es, Apply(es, s, steps[0]), steps[1..], t)
  }

  lemma Ahead(es: seq<Exchange>, s: State, step: Step, steps: seq<Step>, t: State)
    requires Enabled(es, s, step) && Follows(es, Apply(es, s, step), steps, t)
    ensures Follows(es, s, [step] + steps, t)
  {
    assert ([step] + steps)[1..] == steps;
  }

  /** A request without a body, then one that waits before the first answer is read: the
      client takes the first answer for a refusal, and both sides end up waiting. */
  lemma PipelinedWaitDeadlocks(es: seq<Exchange>) returns (steps: seq<Step>, t: State)
    requires Agreed(es) && |es| >= 2
    requires !es[0].waits && es[0].taken == 0 && !es[0].refused
    requires es[1].waits && !es[1].refused
    ensures Follows(es, INITIAL, steps, t) && Deadlocked(t)
  {
    var written := State(Waiting(1), Listening, [Head(0), Head(1)], [], 2, [0, 1], None, [], {});
    var answered := State(Waiting(1), Taking(1, es[1].taken), [], [Final(0), Interim(1)], 2, [0, 1], None, [], {});
    t := State(Reading, Taking(1, es[1].taken), [], [], 2, [1], None, [0], {});
    steps := LastLeg(es, answered, t);
    steps := MiddleLeg(es, written, answered, steps, t);
    var begun := State(Sending(0, 0), Listening, [Head(0)], [], 1, [0], None, [], {});
    assert [Head(0)] + [Head(1)] == [Head(0), Head(1)] && [0] + [1] == [0, 1];
    assert INITIAL.up + [Head(0)] == [Head(0)] && INITIAL.owed + [0] == [0];
    Ahead(es, begun.(client := Ready), Begin, steps, t);
    steps := [Begin] + steps;
    Ahead(es, begun, EndWrite, steps, t);
    steps := [EndWrite] + steps;
    Ahead(es, INITIAL, Begin, steps, t);
    steps := [Begin] + steps;
  }

  lemma MiddleLeg(es: seq<Exchange>, s: State, answered: State, later: seq<Step>, t: State) returns (steps: seq<Step>)
    requires Agreed(es) && |es| >= 2 && Follows(es, answered, later, t)
    requires !es[0].waits && es[0].taken == 0 && !es[0].refused && es[1].waits && !es[1].refused
    requires s == State(Waiting(1), Listening, [Head(0), Head(1)], [], 2, [0, 1], None, [], {})
    requires answered == s.(server := Taking(1, es[1].taken), up := [], down := [Final(0), Interim(1)])
    ensures Follows(es, s, steps, t)
  {
    var taken := s.(server := Taking(0, 0), up := [Head(1)]);
    var replied := taken.(server := Listening, down := [Final(0)]);
    assert [] + [Final(0)] == [Final(0)] && [Final(0)] + [Interim(1)] == [Final(0), Interim(1)];
    Ahead(es, replied, TakeHead, later, t);
    Ahead(es, taken, Respond(false), [TakeHead] + later, t);
    steps := [TakeHead] + ([Respond(false)] + ([TakeHead] + later));
    Ahead(es, s, TakeHead, [Respond(false)] + ([TakeHead] + later), t);
  }

  lemma LastLeg(es: seq<Exchange>, s: State, t: State) returns (steps: seq<Step>)
    requires |es| >= 2 && s.server.Taking?
    requires s == State(Waiting(1), s.server, [], [Final(0), Interim(1)], 2, [0, 1], None, [], {})
    requires t == State(Reading, s.server, [], [], 2, [1], None, [0], {})
    ensures Follows(es, s, steps, t)
  {
    var misread := s.(client := Ready, down := [Interim(1)], prefetched := Some(0));
    var returned := misread.(prefetched := None, returned := [0], owed := [1]);
    var reading := returned.(client := Reading);
    assert [] + [0] == [0] && [0, 1][1..] == [1];
    steps := [];
    Ahead(es, reading, HearResponse, steps, t);
    steps := [HearResponse] + steps;
    Ahead(es, returned, BeginRead, steps, t);
    steps := [BeginRead] + steps;
    Ahead(es, misread, BeginRead, steps, t);
    steps := [BeginRead] + steps;
    Ahead(es, s, HearInterim, steps, t);
    steps := [HearInterim] + steps;
  }

  // ------------------------------------------- bytes that the server leaves behind

  lemma {:induction false} RunsThen(es: seq<Exchange>, s: State, steps: seq<Step>, mid: State, step: Step)
    requires Runs(es, s, steps, mid) && Enabled(es, mid, step) && Disciplined(es, mid, step)
    ensures Runs(es, s, steps + [step], Apply(es, mid, step))
    decreases |steps|
  {
    if steps == [] {
      assert steps + [step] == [step] && [step][1..] == [];
    } else {
      assert (steps + [step])[1..] == steps[1..] + [step];
      RunsThen(es, Apply(es, s, steps[0]), steps[1..], mid, step);
    }
  }

  lemma ReachNext(es: seq<Exchange>, s: State, step: Step)
    requires Reachable(es, s) && Enabled(es, s, step) && Disciplined(es, s, step)
    ensures Reachable(es, Apply(es, s, step))
  {
    var steps :| Runs(es, INITIAL, steps, s);
    RunsThen(es, INITIAL, steps, s, step);
  }

  function Units(id: nat, n: nat): seq<Up> {
    seq(n, _ => Unit(id))
  }

  lemma {:induction false} SendAll(es: seq<Exchange>, s: State) returns (t: State)
    requires Reachable(es, s) && s.client.Sending?
    ensures Reachable(es, t) && t == s.(client := Ready, up := s.up + Units(s.client.id, s.client.left))
    decreases if s.client.Sending? then s.client.left else 0
  {
    hide Reachable;
    if s.client.left == 0 {
      ReachNext(es, s, EndWrite);
      t := Apply(es, s, EndWrite);
      assert s.up + Units(s.client.id, 0) == s.up;
    } else {
      ReachNext(es, s, SendUnit);
      t := SendAll(es, Apply(es, s, SendUnit));
      assert s.up + [Unit(s.client.id)] + Units(s.client.id, s.client.left - 1) == s.up + Units(s.client.id, s.client.left);
    }
  }

  lemma {:induction false} TakeAll(es: seq<Exchange>, s: State) returns (t: State)
    requires Reachable(es, s) && s.server.Taking? && s.server.left <= |s.up|
    ensures Reachable(es, t) && t == s.(server := Taking(s.server.id, 0), up := s.up[s.server.left..])
    decreases if s.server.Taking? then s.server.left else 0
  {
    hide Reachable;
    if s.server.left == 0 {
      t := s;
      assert s.up[0..] == s.up;
    } else {
      ReachNext(es, s, TakeUnit);
      t := TakeAll(es, Apply(es, s, TakeUnit));
      assert s.up[1..][s.server.left - 1..] == s.up[s.server.left..];
    }
  }

  /** Between exchanges: `k` requests are answered and nothing is on its way. */
  ghost predicate Between(es: seq<Exchange>, k: nat, s: State) {
    Reachable(es, s) && s == State(Ready, Listening, [], [], k, [], None, Upto(k), s.heard)
  }

  /** Request `k` has been written and answered, and the answer is on its way. */
  ghost predicate Replied(es: seq<Exchange>, k: nat, s: State)
    requires k < |es| && es[k].taken <= es[k].sent
  {
    && Reachable(es, s)
    && s == State(Ready, Listening, Units(k, es[k].sent - es[k].taken), [Final(k)], k + 1, [k], None, Upto(k), s.heard)
  }

  lemma UnitsSplit(id: nat, n: nat, m: nat)
    requires m <= n
    ensures |Units(id, n)| == n && Units(id, n)[m..] == Units(id, n - m)
  {
  }

  /** One whole exchange, up to its answer; what the server does not take stays behind. */
  lemma ReplyTo(es: seq<Exchange>, k: nat, s: State) returns (t: State)
    requires Between(es, k, s) && k < |es| && !es[k].refused && es[k].waits == es[k].asks && es[k].taken <= es[k].sent
    ensures Replied(es, k, t)
  {
    hide Reachable;
    UnitsSplit(k, es[k].sent, es[k].taken);
    assert [] + [Head(k)] == [Head(k)] && [] + [k] == [k];
    ReachNext(es, s, Begin);
    t := Apply(es, s, Begin);
    if es[k].waits {
      t := Consent(es, k, t);
      t := SendAll(es, t);
      assert [] + Units(k, es[k].sent) == Units(k, es[k].sent);
    } else {
      t := SendAll(es, t);
      assert ([Head(k)] + Units(k, es[k].sent))[1..] == Units(k, es[k].sent);
      ReachNext(es, t, TakeHead);
      t := Apply(es, t, TakeHead);
    }
    t := TakeAll(es, t);
    assert [] + [Final(k)] == [Final(k)];
    ReachNext(es, t, Respond(false));
    t := Apply(es, t, Respond(false));
  }

  /** The server takes the head and asks, and the waiting client hears it. */
  lemma Consent(es: seq<Exchange>, k: nat, s: State) returns (t: State)
    requires Reachable(es, s) && k < |es| && es[k].asks && !es[k].refused
    requires s.client == Waiting(k) && s.server == Listening && s.up == [Head(k)] && s.down == []
    ensures Reachable(es, t)
    ensures t == s.(client := Sending(k, es[k].sent), server := Taking(k, es[k].taken), up := [], heard := s.heard + {k})
  {
    hide Reachable;
    assert [] + [Interim(k)] == [Interim(k)];
    ReachNext(es, s, TakeHead);
    t := Apply(es, s, TakeHead);
    ReachNext(es, t, HearInterim);
    t := Apply(es, t, HearInterim);
  }

  lemma HearAnswer(es: seq<Exchange>, k: nat, s: State, rest: seq<Down>) returns (t: State)
    requires Reachable(es, s) && s.client == Ready && s.prefetched == None && s.owed == [k]
    requires s.returned == Upto(k) && s.down == [Final(k)] + rest
    ensures Reachable(es, t) && t == s.(down := rest, owed := [], returned := Upto(k + 1))
  {
    hide Reachable;
    ReachNext(es, s, BeginRead);
    t := Apply(es, s, BeginRead);
    ReachNext(es, t, HearResponse);
    t := Apply(es, t, HearResponse);
    assert s.down[1..] == rest && Upto(k) + [k] == Upto(k + 1);
  }

  /** Requests that both sides see alike are answered one after the other. */
  lemma {:induction false} ReachBetween(es: seq<Exchange>, k: nat) returns (s: State)
    requires k <= |es| && forall i :: 0 <= i < k ==> Alike(es[i]) && !es[i].refused
    ensures Between(es, k, s)
  {
    if k == 0 {
      s := INITIAL;
      assert Runs(es, INITIAL, [], INITIAL) && Upto(0) == [];
    } else {
      s := ReachBetween(es, k - 1);
      s := ReplyTo(es, k - 1, s);
      hide Reachable;
      assert [Final(k - 1)] + [] == [Final(k - 1)];
      s := HearAnswer(es, k - 1, s, []);
    }
  }

  /** The server reads what it left behind as a head, refuses it and closes. */
  lemma Misread(es: seq<Exchange>, k: nat, s: State) returns (t: State)
    requires k < |es| && es[k].taken < es[k].sent && Replied(es, k, s)
    ensures Reachable(es, t) && t.client == Ready && t.server == Closed && t.down == [Final(k)]
    ensures t.next == k + 1 && t.owed == [] && t.prefetched == None && t.returned == Upto(k + 1)
  {
    hide Reachable;
    assert s.up[0] == Unit(k);
    ReachNext(es, s, RefuseHead);
    t := HearAnswer(es, k, Apply(es, s, RefuseHead), [Final(k)]);
  }

  /** Where the server takes fewer bytes than the client sends, it reads the rest as a head,
      refuses it and closes: what the next request hears first, and last, answers none. */
  lemma StrayAnswer(es: seq<Exchange>, k: nat) returns (t: State)
    requires k + 1 < |es| && forall i :: 0 <= i < k ==> Alike(es[i]) && !es[i].refused
    requires es[k].waits == es[k].asks && !es[k].refused && es[k].taken < es[k].sent
    ensures Reachable(es, t) && t.owed == [k + 1] && t.server == Closed && t.down == [Final(k)]
    ensures t.returned == Upto(k + 1) && (es[k + 1].waits ==> t.client == Waiting(k + 1))
  {
    hide Reachable;
    t := ReachBetween(es, k);
    t := ReplyTo(es, k, t);
    t := Misread(es, k, t);
    assert [] + [k + 1] == [k + 1];
    ReachNext(es, t, Begin);
    t := Apply(es, t, Begin);
  }
}

/** The machine's decisions are those of the client and the server on real requests. */
module ContinueAgreement {
  import opened Text
  import opened HttpReader
  import opened Chunked
  import opened HttpHeaders
  import opened HttpMessages
  import opened HttpExchange
  import opened ExpectContinue

  /** The body bytes the server takes for what the client sends. */
  function TakenOf(request: Request, frame: Frame, limits: Limits): nat {
    match BodyOf(RequestPayload(request), frame, limits, true)
    case Ok(b) => |RequestPayload(request)| - |b.rest|
    case Err(_) => |RequestPayload(request)|
  }

  /** The client decides from what it sends, the server from the fields and bytes it gets. */
  function ExchangeOf(request: Request, host: string, limits: Limits): Exchange
    requires |request.body| < SIZE_MOD
  {
    WaitingAgreement(request, host);
    var headers := OutgoingRequestHeaders(request, host);
    var frame := RequestFrame(headers).value;
    Exchange(WaitsForContinue(request, host),
             InterimResponse(headers, frame) == CONTINUE_LINE,
             Expect(headers) == Unsupported,
             |RequestPayload(request)|,
             TakenOf(request, frame, limits))
  }

  lemma FrameOf(request: Request, host: string)
    requires |request.body| < SIZE_MOD
    ensures RequestFrame(OutgoingRequestHeaders(request, host))
         == Ok(if request.chunked then ChunkedBody else FixedBody(|request.body|))
  {
    hide Expect, ContentLength, TransferEncoding, KeepAlive, PrepareOutgoing;
    FramingAgreement(WithHost(request.headers, host), request.keepAlive, request.chunked,
                     if request.chunked then 0 else |request.body|, request.minor);
  }

  /** The server takes exactly what the client sends, unless that is an empty chunked body:
      then it takes the five bytes of the empty chunk and leaves the rest. */
  lemma TakenExactly(request: Request, limits: Limits)
    requires SaneLimits(limits) && limits.maxHeaderBytes >= 3
    requires FitsReader(request.body, request.chunked, request.trailers, limits)
    ensures var frame := if request.chunked then ChunkedBody else FixedBody(|request.body|);
            var taken := TakenOf(request, frame, limits);
            if request.chunked && request.body == "" then taken == 5 < |RequestPayload(request)|
            else taken == |RequestPayload(request)|
  {
    hide DecodeChunks, EncodeBody, Print, GoodTrailers;
    BodyReadBack(request.body, request.chunked, request.trailers, "", limits);
    assert RequestPayload(request) + "" == RequestPayload(request);
    if request.chunked && request.body == "" {
      EmptyBodyTaken(request.trailers, limits);
    }
  }

  lemma EmptyBodyTaken(trailers: Headers, limits: Limits)
    requires SaneLimits(limits) && limits.maxHeaderBytes >= 3
    ensures |EncodeBody([""], trailers)| == |EncodeBody([], trailers)| + 5 && EncodeBody([], trailers) != ""
    ensures DecodeChunks(EncodeBody([""], trailers), limits.maxHeaderBytes, limits, true, "")
         == Ok(Body("", [], EncodeBody([], trailers)))
  {
    hide DecodeChunks;
    StopsAtEmptyChunk([], [], trailers, "", limits);
    assert [] + [""] + [] == [""] && EncodeBody([""], trailers) + "" == EncodeBody([""], trailers);
    assert EncodeBody([], trailers) + "" == EncodeBody([], trailers);
    EncodeChunksOne("");
    assert EncodeChunk("") == "0\r\n\r\n" && |EncodeChunks([])| == 0;
  }

  /** For every request within the reader's limits, the two sides see it alike exactly when it
      is not a chunked request with an empty body. */
  lemma AlikeExactly(request: Request, host: string, limits: Limits)
    requires SaneLimits(limits) && limits.maxHeaderBytes >= 3 && |request.body| < SIZE_MOD
    requires FitsReader(request.body, request.chunked, request.trailers, limits)
    ensures var e := ExchangeOf(request, host, limits);
            && e.waits == e.asks && e.taken <= e.sent
            && (Alike(e) <==> !(request.chunked && request.body == ""))
  {
    hide TakenOf, InterimResponse, Expect, OutgoingRequestHeaders, FitsReader;
    WaitingAgreement(request, host);
    FrameOf(request, host);
    TakenExactly(request, limits);
    if request.chunked {
      assert RequestPayload(request) != "";
    }
  }

  ghost predicate AreExchanges(es: seq<Exchange>, requests: seq<Request>, host: string, limits: Limits) {
    && |es| == |requests|
    && forall i :: 0 <= i < |es| ==>
         && |requests[i].body| < SIZE_MOD && es[i] == ExchangeOf(requests[i], host, limits)
         && FitsReader(requests[i].body, requests[i].chunked, requests[i].trailers, limits)
  }

  /** For any list of requests within the limits, the two sides agree on all of them exactly
      when none is a chunked request with an empty body. */
  lemma EveryRequestAgreed(es: seq<Exchange>, requests: seq<Request>, host: string, limits: Limits)
    requires SaneLimits(limits) && limits.maxHeaderBytes >= 3 && AreExchanges(es, requests, host, limits)
    ensures Agreed(es) <==> forall i :: 0 <= i < |requests| ==> !(requests[i].chunked && requests[i].body == "")
  {
    hide ExchangeOf, FitsReader, Alike;
    forall i | 0 <= i < |es| ensures Alike(es[i]) <==> !(requests[i].chunked && requests[i].body == "") {
      AlikeExactly(requests[i], host, limits);
    }
  }

  /** Behind the first chunked request with an empty body, the next request hears an answer to
      none of the requests: the one condition of `EveryRequestAgreed` cannot be dropped. */
  lemma EmptyChunkedStrays(es: seq<Exchange>, requests: seq<Request>, host: string, limits: Limits, k: nat) returns (t: State)
    requires SaneLimits(limits) && limits.maxHeaderBytes >= 3 && AreExchanges(es, requests, host, limits)
    requires k + 1 < |requests| && requests[k].chunked && requests[k].body == ""
    requires forall i :: 0 <= i < k ==> !(requests[i].chunked && requests[i].body == "")
    requires forall i :: 0 <= i <= k ==> !es[i].refused
    ensures Reachable(es, t) && t.owed == [k + 1] && t.server == Closed && t.down == [Final(k)] && t.returned == Upto(k + 1)
  {
    hide ExchangeOf, FitsReader, Reachable;
    forall i | 0 <= i <= k
      ensures es[i].waits == es[i].asks && es[i].taken <= es[i].sent
      ensures Alike(es[i]) <==> i != k
    {
      AlikeExactly(requests[i], host, limits);
    }
    SentMore(requests[k], host, limits);
    t := StrayAnswer(es, k);
  }

  lemma SentMore(request: Request, host: string, limits: Limits)
    requires SaneLimits(limits) && limits.maxHeaderBytes >= 3 && |request.body| < SIZE_MOD
    requires FitsReader(request.body, request.chunked, request.trailers, limits)
    requires request.chunked && request.body == ""
    ensures ExchangeOf(request, host, limits).taken < ExchangeOf(request, host, limits).sent
  {
    hide TakenOf, InterimResponse, Expect, OutgoingRequestHeaders, FitsReader;
    WaitingAgreement(request, host);
    FrameOf(request, host);
    TakenExactly(request, limits);
  }
}
