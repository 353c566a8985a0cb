/**
 * The coordinator as the running program has it: a connection manager whose
 * connection map is updated in place and whose registry lives in the store,
 * the liveness sweep as a loop over the stored workers, and the /register and
 * /ws/{worker_id} endpoints. Each method's effect on the coordinator state is
 * the matching step of the value model.
 */
module Manager {
  import opened Records
  import opened RedisHelper
  import opened ManagerModel

  /** A heartbeat message as the worker sends it; the coordinator ignores its contents. */
  datatype HeartbeatPayload = HeartbeatPayload(timestamp: int, workerId: string, workerName: string, status: string)

  /** A message received on the channel, with the coordinator's clock at its arrival. */
  datatype Arrival = Arrival(payload: HeartbeatPayload, at: int)

  /** The reply of the /register endpoint. */
  datatype RegisterResponse = Success(workerId: string) | Error(error: string)

  /** The events of one channel session after it opens: one heartbeat per message. */
  // The two ensures only spell out the comprehension for the session proof.
  function Heartbeats(workerId: string, inbound: seq<Arrival>): (es: seq<Event>)
    ensures |es| == |inbound|
    ensures forall i :: 0 <= i < |inbound| ==> es[i] == Received(workerId, inbound[i].at)
  {
    seq(|inbound|, i requires 0 <= i < |inbound| => Received(workerId, inbound[i].at))
  }

  /** A whole channel session: open, the messages in order, then the close. */
  function Session(workerId: string, socket: Handle, inbound: seq<Arrival>): seq<Event> {
    [Opened(workerId, socket)] + Heartbeats(workerId, inbound) + [Closed(workerId)]
  }

  class ConnectionManager {
    var activeConnections: map<string, Handle>
    const redis: RedisManager
    const heartbeatTimeout: int

    /** A manager with no connections over an empty in-memory store. */
    constructor(heartbeatTimeout: int := DEFAULT_HEARTBEAT_TIMEOUT)
      ensures Valid() && fresh(redis) && fresh(redis.pool)
      ensures State() == Initial && this.heartbeatTimeout == heartbeatTimeout
    {
      activeConnections := map[];
      redis := new RedisManager();
      this.heartbeatTimeout := heartbeatTimeout;
    }

    /** The connection map together with the stored worker records. */
    function State(): Coordinator
      reads this, redis.pool
    {
      Coordinator(activeConnections, redis.Workers())
    }

    ghost predicate Valid()
      reads this, redis.pool
    {
      Consistent(State())
    }

    /** Track a newly accepted channel; any earlier handle for the id is replaced. */
    method Connect(socket: Handle, workerId: string)
      requires Valid()
      modifies this
      ensures Valid()
      ensures activeConnections == old(activeConnections)[workerId := socket]
    {
      activeConnections := activeConnections[workerId := socket];
    }

    /** Forget a channel and mark the worker "disconnected", if the id is still tracked. */
    method Disconnect(workerId: string)
      requires Valid()
      modifies this, redis.pool
      ensures Valid()
      ensures State() == Close(old(State()), workerId)
      ensures OthersUnchanged(old(redis.pool.data), redis.pool.data)
    {
      if workerId in activeConnections {
        activeConnections := activeConnections - {workerId};
        UpdateWorkerStatus(workerId, DISCONNECTED);
      }
    }

    /** Set the stored status of a worker; an unknown id is ignored. */
    method UpdateWorkerStatus(workerId: string, status: string)
      requires Valid()
      modifies redis.pool
      ensures Valid()
      ensures redis.Workers() == SetStatus(old(redis.Workers()), workerId, status)
      ensures OthersUnchanged(old(redis.pool.data), redis.pool.data)
    {
      var _ := redis.UpdateWorkerStatus(workerId, status);
    }

    /** Record a heartbeat: the worker becomes "alive", whatever the payload says. */
    method ProcessHeartbeat(workerId: string, data: HeartbeatPayload, now: int)
      requires Valid()
      modifies redis.pool
      ensures Valid()
      ensures State() == Step(old(State()), Received(workerId, now), heartbeatTimeout)
      ensures OthersUnchanged(old(redis.pool.data), redis.pool.data)
    {
      var _ := redis.UpdateWorkerHeartbeat(workerId, now, ALIVE);
    }

    /** One pass of the liveness monitor at time `now`. */
    method CheckWorkerStatus(now: int)
      requires Valid()
      modifies redis.pool
      ensures Valid()
      ensures State() == Step(old(State()), Swept(now), heartbeatTimeout)
      ensures OthersUnchanged(old(redis.pool.data), redis.pool.data)
    {
      var workers := redis.GetAllWorkers();
      assert workers == redis.Workers();
      ghost var swept := Sweep(workers, now, heartbeatTimeout);
      var pending := workers.Keys;
      while pending != {}
        invariant pending <= workers.Keys
        invariant redis.Workers().Keys == workers.Keys
        invariant forall id :: id in pending ==> redis.Workers()[id] == workers[id]
        invariant forall id :: id in workers && id !in pending ==> redis.Workers()[id] == swept[id]
        invariant OthersUnchanged(old(redis.pool.data), redis.pool.data)
        decreases pending
      {
        var workerId :| workerId in pending;
        var workerInfo := workers[workerId];
        if workerInfo.status != DISCONNECTED {
          // every stored record has the key, so reading it cannot fail
          assert workerInfo.lastHeartbeat != Absent;
          if IsSet(workerInfo.lastHeartbeat) && now - workerInfo.lastHeartbeat.seconds > heartbeatTimeout {
            var _ := redis.UpdateWorkerStatus(workerId, NOT_RESPONDING);
          }
        }
        pending := pending - {workerId};
      }
      assert redis.Workers() == swept;
    }
  }

  /** POST /register: store the record stamped with `now` and echo the id. */
  method RegisterWorkerEndpoint(manager: ConnectionManager, worker: WorkerRecord, now: int)
    returns (response: RegisterResponse)
    requires manager.Valid()
    modifies manager.redis.pool
    ensures manager.Valid()
    ensures response == Success(worker.workerId)
    ensures manager.State() == Step(old(manager.State()), Registration(worker, now), manager.heartbeatTimeout)
    ensures OthersUnchanged(old(manager.redis.pool.data), manager.redis.pool.data)
  {
    var workerDict := worker.(lastHeartbeat := At(now));
    var success := manager.redis.RegisterWorker(worker.workerId, workerDict, now);
    if success {
      response := Success(worker.workerId);
    } else {
      response := Error("Failed to register worker");
    }
    StepKeepsConsistent(old(manager.State()), Registration(worker, now), manager.heartbeatTimeout);
  }

  /**
   * /ws/{worker_id}: accept and track the channel, mark the worker "connected",
   * process every message that arrives as a heartbeat, and disconnect when the
   * channel closes or fails.
   */
  method WebsocketEndpoint(manager: ConnectionManager, socket: Handle, workerId: string, inbound: seq<Arrival>)
    requires manager.Valid()
    modifies manager, manager.redis.pool
    ensures manager.Valid()
    ensures manager.State() == Run(old(manager.State()), Session(workerId, socket, inbound), manager.heartbeatTimeout)
    ensures OthersUnchanged(old(manager.redis.pool.data), manager.redis.pool.data)
  {
    ghost var start := manager.State();
    ghost var timeout := manager.heartbeatTimeout;
    manager.Connect(socket, workerId);
    manager.UpdateWorkerStatus(workerId, CONNECTED);
    assert manager.State() == Run(start, [Opened(workerId, socket)], timeout);
    var i := 0;
    while i < |inbound|
      invariant 0 <= i <= |inbound|
      invariant manager.Valid()
      invariant manager.State() == Run(start, [Opened(workerId, socket)] + Heartbeats(workerId, inbound[..i]), timeout)
      invariant OthersUnchanged(old(manager.redis.pool.data), manager.redis.pool.data)
    {
      var arrival := inbound[i];
      ghost var before := [Opened(workerId, socket)] + Heartbeats(workerId, inbound[..i]);
      manager.ProcessHeartbeat(workerId, arrival.payload, arrival.at);
      RunSnoc(start, before, Received(workerId, arrival.at), timeout);
      assert before + [Received(workerId, arrival.at)] == [Opened(workerId, socket)] + Heartbeats(workerId, inbound[..i + 1]);
      i := i + 1;
    }
    ghost var live := [Opened(workerId, socket)] + Heartbeats(workerId, inbound);
    assert inbound[..i] == inbound;
    manager.Disconnect(workerId);
    RunSnoc(start, live, Closed(workerId), timeout);
    RunKeepsConsistent(start, Session(workerId, socket, inbound), timeout);
  }
}
