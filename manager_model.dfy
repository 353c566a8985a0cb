/**
 * The coordinator's liveness logic as values: one sweep over the worker map,
 * the coordinator state (connection map plus worker records), the effect of
 * each handler event on it, and what follows for sequences of events.
 */
module ManagerModel {
  import opened Records
  import opened RedisHelper

  /** A heartbeat channel handle; only its identity matters. */
  type Handle = nat

  /** The record has a heartbeat that lies more than `timeout` seconds before `now`. */
  predicate Overdue(rec: WorkerRecord, now: int, timeout: int) {
    IsSet(rec.lastHeartbeat) && now - rec.lastHeartbeat.seconds > timeout
  }

  /**
   * One sweep at time `now`: every record that is not "disconnected" and whose
   * heartbeat is overdue is set to "not_responding". Elapsed time equal to the
   * timeout is not overdue.
   */
  function Sweep(ws: map<string, WorkerRecord>, now: int, timeout: int): (r: map<string, WorkerRecord>)
    ensures r.Keys == ws.Keys
    ensures forall id :: id in ws ==> SameIdentity(r[id], ws[id]) && r[id].lastHeartbeat == ws[id].lastHeartbeat
    ensures forall id :: id in ws && ws[id].status == DISCONNECTED ==> r[id] == ws[id]
    ensures forall id :: id in ws && !IsSet(ws[id].lastHeartbeat) ==> r[id] == ws[id]
    ensures forall id :: id in ws && !Overdue(ws[id], now, timeout) ==> r[id] == ws[id]
    ensures forall id :: id in ws && ws[id].status != DISCONNECTED && Overdue(ws[id], now, timeout) ==>
      r[id].status == NOT_RESPONDING
    ensures AllStamped(ws) ==> AllStamped(r)
  {
    map id | id in ws ::
      if ws[id].status != DISCONNECTED && Overdue(ws[id], now, timeout)
      then ws[id].(status := NOT_RESPONDING)
      else ws[id]
  }

  /** Two sweeps at the same time leave the same store as one. */
  lemma SweepIdempotent(ws: map<string, WorkerRecord>, now: int, timeout: int)
    ensures Sweep(Sweep(ws, now, timeout), now, timeout) == Sweep(ws, now, timeout)
  {
    var once := Sweep(ws, now, timeout);
    var twice := Sweep(once, now, timeout);
    forall id | id in once
      ensures twice[id] == once[id]
    {
      if once[id].status != DISCONNECTED && Overdue(once[id], now, timeout) {
        assert once[id].status == NOT_RESPONDING;
      }
    }
  }

  /** The coordinator: open heartbeat channels and the stored worker records. */
  datatype Coordinator = Coordinator(connections: map<string, Handle>, workers: map<string, WorkerRecord>)

  /** The coordinator before any event. */
  const Initial := Coordinator(map[], map[])

  /**
   * The /register endpoint: the request record is stored under its own id with
   * `last_heartbeat` overwritten to `now` and its status as supplied.
   */
  function Register(s: Coordinator, info: WorkerRecord, now: int): (r: Coordinator)
    ensures r.connections == s.connections
    ensures r.workers.Keys == s.workers.Keys + {info.workerId}
    ensures r.workers[info.workerId] == info.(lastHeartbeat := At(now))
    ensures forall id :: id in s.workers && id != info.workerId ==> r.workers[id] == s.workers[id]
  {
    s.(workers := Upsert(s.workers, info.workerId, info.(lastHeartbeat := At(now)), now))
  }

  /**
   * A heartbeat channel opens: the handle replaces any earlier one for the id,
   * then a registered worker becomes "connected".
   */
  function Open(s: Coordinator, id: string, socket: Handle): (r: Coordinator)
    ensures r.connections.Keys == s.connections.Keys + {id} && r.connections[id] == socket
    ensures forall other :: other in s.connections && other != id ==> r.connections[other] == s.connections[other]
    ensures r.workers.Keys == s.workers.Keys
    ensures id in s.workers ==> r.workers[id].status == CONNECTED && SameIdentity(r.workers[id], s.workers[id])
    ensures id in s.workers ==> r.workers[id].lastHeartbeat == s.workers[id].lastHeartbeat
    ensures forall other :: other in s.workers && other != id ==> r.workers[other] == s.workers[other]
  {
    Coordinator(s.connections[id := socket], SetStatus(s.workers, id, CONNECTED))
  }

  /**
   * A heartbeat message arrives at time `now`: whatever it carries and whatever
   * the prior status, a registered worker becomes "alive" with a fresh
   * heartbeat; for an unregistered id nothing changes.
   */
  function Receive(s: Coordinator, id: string, now: int): (r: Coordinator)
    ensures r.connections == s.connections
    ensures r.workers.Keys == s.workers.Keys
    ensures id in s.workers ==> r.workers[id].status == ALIVE && r.workers[id].lastHeartbeat == At(now)
    ensures id in s.workers ==> SameIdentity(r.workers[id], s.workers[id])
    ensures forall other :: other in s.workers && other != id ==> r.workers[other] == s.workers[other]
    ensures id !in s.workers ==> r == s
  {
    s.(workers := Touch(s.workers, id, ALIVE, now))
  }

  /**
   * A channel closes (cleanly or with an error): only when the id is still in
   * the connection map is it removed and its record set to "disconnected".
   */
  function Close(s: Coordinator, id: string): (r: Coordinator)
    ensures id in s.connections ==> r.connections.Keys == s.connections.Keys - {id}
    ensures r.workers.Keys == s.workers.Keys
    ensures id in s.connections && id in s.workers ==> r.workers[id].status == DISCONNECTED
    ensures id in s.connections && id in s.workers ==>
      SameIdentity(r.workers[id], s.workers[id]) && r.workers[id].lastHeartbeat == s.workers[id].lastHeartbeat
    ensures forall other :: other in s.workers && other != id ==> r.workers[other] == s.workers[other]
    ensures id !in s.connections ==> r == s
    ensures forall other :: other in s.connections && other != id ==> r.connections[other] == s.connections[other]
  {
    if id in s.connections then
      Coordinator(s.connections - {id}, SetStatus(s.workers, id, DISCONNECTED))
    else
      s
  }

  /** The events the coordinator reacts to, with the clock reading where it is used. */
  datatype Event =
    | Registration(info: WorkerRecord, at: int)
    | Opened(workerId: string, socket: Handle)
    | Received(workerId: string, at: int)
    | Closed(workerId: string)
    | Swept(at: int)

  function Step(s: Coordinator, e: Event, timeout: int): Coordinator {
    match e
    case Registration(info, now) => Register(s, info, now)
    case Opened(id, socket) => Open(s, id, socket)
    case Received(id, now) => Receive(s, id, now)
    case Closed(id) => Close(s, id)
    case Swept(now) => s.(workers := Sweep(s.workers, now, timeout))
  }

  /** The coordinator after the events `es`, in order. */
  function Run(s: Coordinator, es: seq<Event>, timeout: int): Coordinator
    decreases |es|
  {
    if es == [] then s else Run(Step(s, es[0], timeout), es[1..], timeout)
  }

  /** Running one more event is one more step. */
  lemma {:induction false} RunSnoc(s: Coordinator, es: seq<Event>, e: Event, timeout: int)
    ensures Run(s, es + [e], timeout) == Step(Run(s, es, timeout), e, timeout)
    decreases |es|
  {
    if es == [] {
      assert es + [e] == [e];
    } else {
      assert (es + [e])[1..] == es[1..] + [e];
      RunSnoc(Step(s, es[0], timeout), es[1..], e, timeout);
    }
  }

  /** Every record sits under its own id and has a heartbeat timestamp. */
  predicate Consistent(s: Coordinator) {
    forall id :: id in s.workers ==> s.workers[id].workerId == id && IsSet(s.workers[id].lastHeartbeat)
  }

  lemma StepKeepsConsistent(s: Coordinator, e: Event, timeout: int)
    requires Consistent(s)
    ensures Consistent(Step(s, e, timeout))
  {
    match e
    case Registration(info, now) =>
      var r := Register(s, info, now);
      forall id | id in r.workers
        ensures r.workers[id].workerId == id && IsSet(r.workers[id].lastHeartbeat)
      {
        if id != info.workerId {
          assert r.workers[id] == s.workers[id];
        }
      }
    case Opened(id, socket) =>
    case Received(id, now) =>
    case Closed(id) =>
    case Swept(now) =>
  }

  /** Registration stamps every record, so no stored record ever lacks a heartbeat. */
  lemma {:induction false} RunKeepsConsistent(s: Coordinator, es: seq<Event>, timeout: int)
    requires Consistent(s)
    ensures Consistent(Run(s, es, timeout))
    decreases |es|
  {
    if es != [] {
      StepKeepsConsistent(s, es[0], timeout);
      RunKeepsConsistent(Step(s, es[0], timeout), es[1..], timeout);
    }
  }

  /** The ids that the events register. */
  function RegisteredIds(es: seq<Event>): set<string>
    decreases |es|
  {
    if es == [] then {}
    else (if es[0].Registration? then {es[0].info.workerId} else {}) + RegisteredIds(es[1..])
  }

  /** Workers are only ever added, and only by registration. */
  lemma {:induction false} RunWorkerIds(s: Coordinator, es: seq<Event>, timeout: int)
    ensures Run(s, es, timeout).workers.Keys == s.workers.Keys + RegisteredIds(es)
    decreases |es|
  {
    if es != [] {
      RunWorkerIds(Step(s, es[0], timeout), es[1..], timeout);
    }
  }

  /** Events that give worker `id` a new status other than "disconnected". */
  predicate Revives(e: Event, id: string) {
    || (e.Registration? && e.info.workerId == id)
    || (e.Opened? && e.workerId == id)
    || (e.Received? && e.workerId == id)
  }

  /**
   * A "disconnected" worker stays exactly as it is, through any number of
   * sweeps and closes, until it is registered again, reopens a channel or
   * sends a heartbeat.
   */
  lemma {:induction false} DisconnectedStaysDisconnected(s: Coordinator, id: string, es: seq<Event>, timeout: int)
    requires id in s.workers && s.workers[id].status == DISCONNECTED
    requires forall i :: 0 <= i < |es| ==> !Revives(es[i], id)
    ensures id in Run(s, es, timeout).workers
    ensures Run(s, es, timeout).workers[id] == s.workers[id]
    decreases |es|
  {
    if es != [] {
      assert !Revives(es[0], id);
      var next := Step(s, es[0], timeout);
      assert id in next.workers && next.workers[id] == s.workers[id];
      DisconnectedStaysDisconnected(next, id, es[1..], timeout);
    }
  }

  /** Events that concern worker `id` itself. */
  predicate Mentions(e: Event, id: string) {
    Revives(e, id) || (e.Closed? && e.workerId == id)
  }

  /** A worker that nothing concerns keeps its identity and heartbeat and is never "disconnected". */
  lemma {:induction false} SilentWorkerKeepsStamp(s: Coordinator, id: string, es: seq<Event>, timeout: int)
    requires id in s.workers && s.workers[id].status != DISCONNECTED
    requires forall i :: 0 <= i < |es| ==> !Mentions(es[i], id)
    ensures id in Run(s, es, timeout).workers
    ensures SameIdentity(Run(s, es, timeout).workers[id], s.workers[id])
    ensures Run(s, es, timeout).workers[id].lastHeartbeat == s.workers[id].lastHeartbeat
    ensures Run(s, es, timeout).workers[id].status != DISCONNECTED
    decreases |es|
  {
    if es != [] {
      assert !Mentions(es[0], id);
      var next := Step(s, es[0], timeout);
      assert id in next.workers && next.workers[id].status != DISCONNECTED;
      SilentWorkerKeepsStamp(next, id, es[1..], timeout);
    }
  }

  /**
   * A worker that is not "disconnected" and hears nothing more is
   * "not_responding" after the first sweep that finds its heartbeat older than
   * the timeout, whatever else happens in between.
   */
  lemma SilentWorkerIsDemoted(s: Coordinator, id: string, es: seq<Event>, now: int, timeout: int)
    requires id in s.workers && s.workers[id].status != DISCONNECTED && s.workers[id].lastHeartbeat.At?
    requires forall i :: 0 <= i < |es| ==> !Mentions(es[i], id)
    requires now - s.workers[id].lastHeartbeat.seconds > timeout
    ensures id in Run(s, es + [Swept(now)], timeout).workers
    ensures Run(s, es + [Swept(now)], timeout).workers[id].status == NOT_RESPONDING
  {
    SilentWorkerKeepsStamp(s, id, es, timeout);
    RunSnoc(s, es, Swept(now), timeout);
  }

  /**
   * A worker registered at time 0 that opens its channel and never sends a
   * heartbeat: with the default 15-second timeout a sweep at 15 leaves it
   * "connected", and one at 20 sets it "not_responding", since registration
   * stamped it with time 0.
   */
  lemma NeverHeartbeatingWorkerIsDemoted(info: WorkerRecord, socket: Handle)
    ensures var joined := Run(Initial, [Registration(info, 0), Opened(info.workerId, socket)], DEFAULT_HEARTBEAT_TIMEOUT);
      && info.workerId in joined.workers
      && Step(joined, Swept(15), DEFAULT_HEARTBEAT_TIMEOUT).workers[info.workerId].status == CONNECTED
      && Step(joined, Swept(20), DEFAULT_HEARTBEAT_TIMEOUT).workers[info.workerId].status == NOT_RESPONDING
  {
    var id := info.workerId;
    var registered := Register(Initial, info, 0);
    var joined := Open(registered, id, socket);
    assert Run(Initial, [Registration(info, 0), Opened(id, socket)], DEFAULT_HEARTBEAT_TIMEOUT) == joined by {
      RunSnoc(Initial, [Registration(info, 0)], Opened(id, socket), DEFAULT_HEARTBEAT_TIMEOUT);
      assert [Registration(info, 0)] + [Opened(id, socket)] == [Registration(info, 0), Opened(id, socket)];
    }
    assert joined.workers[id].lastHeartbeat == At(0);
  }

  /**
   * A worker alive with its last heartbeat at 0 and silent since: a sweep at
   * 16 sets it "not_responding", and a heartbeat at 17 makes it "alive" again.
   */
  lemma LateHeartbeatRevivesWorker(s: Coordinator, id: string)
    requires id in s.workers && s.workers[id].status == ALIVE && s.workers[id].lastHeartbeat == At(0)
    ensures var swept := Step(s, Swept(16), DEFAULT_HEARTBEAT_TIMEOUT);
      && swept.workers[id].status == NOT_RESPONDING
      && Step(swept, Received(id, 17), DEFAULT_HEARTBEAT_TIMEOUT).workers[id].status == ALIVE
      && Step(swept, Received(id, 17), DEFAULT_HEARTBEAT_TIMEOUT).workers[id].lastHeartbeat == At(17)
  {
  }

  /**
   * A worker whose channel is replaced by a new one before the old one closes:
   * the old channel's close removes the new handle and marks it
   * "disconnected", the next heartbeat on the new channel makes it "alive",
   * and the new channel's own close then changes nothing, so the worker stays
   * "alive" with no open channel.
   */
  lemma CloseAfterReplacedChannelLeavesWorkerAlive(s: Coordinator, id: string, first: Handle, second: Handle, now: int)
    requires id in s.workers
    ensures var after := Run(s, [Opened(id, first), Opened(id, second), Closed(id), Received(id, now), Closed(id)], DEFAULT_HEARTBEAT_TIMEOUT);
      && id !in after.connections
      && id in after.workers
      && after.workers[id].status == ALIVE
  {
    var s1 := Open(s, id, first);
    var s2 := Open(s1, id, second);
    var s3 := Close(s2, id);
    assert s3.workers[id].status == DISCONNECTED && id !in s3.connections;
    var s4 := Receive(s3, id, now);
    var s5 := Close(s4, id);
    assert s5 == s4;
    var es := [Opened(id, first), Opened(id, second), Closed(id), Received(id, now), Closed(id)];
    var t := DEFAULT_HEARTBEAT_TIMEOUT;
    assert Run(s4, es[4..], t) == s5 by {
      assert es[4..][1..] == [];
    }
    assert Run(s, es, t) == Run(s1, es[1..], t) == Run(s2, es[2..], t) == Run(s3, es[3..], t) == Run(s4, es[4..], t) by {
      assert es[1..][1..] == es[2..] && es[2..][1..] == es[3..] && es[3..][1..] == es[4..];
    }
  }

  /**
   * A worker that sent a heartbeat at `sent` is still "alive" after a sweep at
   * `now` as long as no more than the timeout has passed.
   */
  lemma FreshHeartbeatSurvivesSweep(s: Coordinator, id: string, sent: int, now: int, timeout: int)
    requires id in s.workers
    requires now - sent <= timeout
    ensures id in Run(s, [Received(id, sent), Swept(now)], timeout).workers
    ensures Run(s, [Received(id, sent), Swept(now)], timeout).workers[id].status == ALIVE
  {
    var es := [Received(id, sent), Swept(now)];
    var beat := Receive(s, id, sent);
    assert Run(s, es, timeout) == Run(beat, es[1..], timeout);
    assert Run(beat, es[1..], timeout) == beat.(workers := Sweep(beat.workers, now, timeout)) by {
      assert es[1..][1..] == [];
    }
  }
}
