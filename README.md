# Worker registry and liveness monitor

A Dafny model of the coordinator of a manager/worker fleet. Workers register
over HTTP, open a heartbeat channel, and are then watched for liveness. Two
parts of the coordinator are modelled:

- **The registry.** `redis_helper.py` keeps one record per worker in the
  `"workers"` hash of a keyed-hash store. When Redis is missing, the store is
  an in-memory nested dictionary (`InMemoryRedis`). The registry offers
  register (an upsert), heartbeat update, status update, get-one and get-all.
- **The connection manager and its handlers.** `manager.py` keeps a map from
  worker id to open channel and drives status changes:
  - the `/register` endpoint stores the record;
  - opening a channel sets the status to `connected`;
  - each message sets `alive` and refreshes `last_heartbeat`;
  - closing the channel sets `disconnected`;
  - a periodic sweep sets `not_responding` on workers whose last heartbeat is
    older than `HEARTBEAT_TIMEOUT` (15 s by default).

Files:

- `records.dfy` (`Records`): the worker record, with the defaults of the
  request model, and the status strings.
- `redis_helper.dfy` (`RedisHelper`): the classes `InMemoryRedis` and
  `RedisManager`. Their methods update the store in place. Pure functions
  (`Put`, `Upsert`, `Touch`, `SetStatus`) state each update.
- `manager_model.dfy` (`ManagerModel`): the sweep and the coordinator state
  as values, the effect of each event (`Step`) and of event sequences
  (`Run`), and lemmas about them.
- `manager.dfy` (`Manager`): the class `ConnectionManager` and the two
  endpoints. The disconnect, heartbeat and sweep methods and both endpoints
  are proved to leave the state that the matching `Step` or `Run` gives.

Conventions:

- Timestamps are whole seconds. The clock is a `now` parameter.
- JSON encoding and decoding are the identity on the record.
- `last_heartbeat` takes one of three forms: the key is absent (`Absent`),
  it holds a false value such as None or `""` (`Blank`), or it holds a
  timestamp (`At`).
- Status is an unvalidated string, as in the code.

## Where the code differs from the documented lifecycle

The model follows the code in each case below.

- `/register` always overwrites `last_heartbeat` with the current time
  (manager.py:139). So a worker that registers and never sends a heartbeat
  is not exempt from the sweep: it becomes `not_responding` once the timeout
  has passed (`NeverHeartbeatingWorkerIsDemoted`).
- `/register` stores the status it receives. It defaults to `registered`,
  but the worker agent sends `registering`.
- `disconnect` looks only at the worker id, not at which channel is closing.
  Suppose a second channel opens for an id before the first one closes:
  - the first channel's close removes the second channel's entry and marks
    the worker `disconnected`;
  - the second channel's next heartbeat makes it `alive` again;
  - the second channel's own close then changes nothing.

  So a channel close does not always leave the worker `disconnected`
  (`CloseAfterReplacedChannelLeavesWorkerAlive`).
- A heartbeat or a channel open for an id that was never registered creates
  no record. A channel open only adds the id to the connection map.
- The sweep demotes any worker that is not `disconnected` and has an overdue
  heartbeat, whatever its status: `registered`, `connected` or `alive`.
- `last_heartbeat` never decreases only if the clock readings passed in
  never decrease: a heartbeat stores the current reading as it is.

## Model

| member | source | states |
|---|---|---|
| `RedisHelper.Get` | redis_helper.py:47-51 | a lookup is None when the hash is absent or lacks the key, and otherwise the stored value |
| `RedisHelper.Put` | redis_helper.py:40-45 | after setting (h, k) to v, a lookup of (h, k) gives v, every other (hash, key) lookup is unchanged, and the hash exists afterwards |
| `RedisHelper.InMemoryRedis.constructor` | redis_helper.py:37-38 | the store starts empty |
| `RedisHelper.InMemoryRedis.HSet` | redis_helper.py:40-45 | returns 1; the new store is `Put` of the old one |
| `RedisHelper.InMemoryRedis.HGet` | redis_helper.py:47-51 | returns exactly the lookup of (hash, key) in the current store |
| `RedisHelper.InMemoryRedis.HGetAll` | redis_helper.py:53-57 | returns the whole hash, and an empty map for an absent hash |
| `RedisHelper.Upsert` | redis_helper.py:92-101 | registration adds or replaces exactly the entry for the id: key set grows by that id only, size grows by one only for a new id, the stored record is the given one, `last_heartbeat` set to now only when the record had none, other entries unchanged, stamped records stay stamped |
| `RedisHelper.Touch` | redis_helper.py:106-119 | a heartbeat update of a known id sets its status and `last_heartbeat` = now and keeps its identity fields; other workers unchanged; an unknown id changes nothing |
| `RedisHelper.SetStatus` | redis_helper.py:124-136 | a status update of a known id changes only that record's status; other workers unchanged; an unknown id changes nothing |
| `RedisHelper.RedisManager.constructor` | redis_helper.py:63-72 | the manager after `connect` has chosen the in-memory store: an empty fresh store |
| `RedisHelper.RedisManager.RegisterWorker` | redis_helper.py:92-104 | always succeeds; the workers hash becomes `Upsert` of the old one; no other hash changes |
| `RedisHelper.RedisManager.UpdateWorkerHeartbeat` | redis_helper.py:106-122 | returns True exactly for a known id; status defaults to "alive"; the workers hash becomes `Touch` of the old one; an unknown id leaves the whole store unchanged |
| `RedisHelper.RedisManager.UpdateWorkerStatus` | redis_helper.py:124-139 | returns True exactly for a known id; the workers hash becomes `SetStatus` of the old one; an unknown id leaves the whole store unchanged |
| `RedisHelper.RedisManager.GetWorker` | redis_helper.py:141-150 | None exactly for an unknown id, otherwise the stored record |
| `RedisHelper.RedisManager.GetAllWorkers` | redis_helper.py:152-162 | the map it builds has exactly the key set of the workers hash, each key mapped to its stored record |
| `ManagerModel.Sweep` | manager.py:80-92 | a sweep keeps the key set and changes only statuses; never touches a "disconnected" worker or one without a heartbeat; leaves unchanged every worker whose elapsed time is at most the timeout (strict comparison); sets "not_responding" on every other worker |
| `ManagerModel.SweepIdempotent` | manager.py:80-92 | two sweeps at the same time give the same store as one |
| `ManagerModel.Register` | manager.py:134-141 | /register stores the request record under its id with `last_heartbeat` = now and the status as supplied, leaves other records and the connection map unchanged |
| `ManagerModel.Open` | manager.py:152-158 | opening a channel maps the id to the new handle, replacing any previous one, other handles unchanged; a registered worker becomes "connected" with its identity and `last_heartbeat` kept; other records unchanged |
| `ManagerModel.Receive` | manager.py:69-71 | a heartbeat makes a registered worker "alive" with `last_heartbeat` = now, whatever the prior status, keeping its identity fields; other workers and the connection map unchanged; an unregistered id changes nothing |
| `ManagerModel.Close` | manager.py:58-63 | a close removes a tracked id, keeping every other handle, and marks it "disconnected" with its identity and `last_heartbeat` kept; other records unchanged; for an untracked id neither the connections nor the store change |
| `ManagerModel.RunSnoc` | manager.py:161-163 | running one more event after a sequence equals one more step |
| `ManagerModel.StepKeepsConsistent` | manager.py:134-141 | every event keeps each record under its own id and stamped |
| `ManagerModel.RunKeepsConsistent` | manager.py:134-141 | over any sequence of events, every stored record stays keyed by its own id and has a heartbeat, so the sweep never meets a record without one |
| `ManagerModel.RunWorkerIds` | manager.py:134-170 | after any events, the stored ids are the earlier ones plus those registered: nothing is ever removed |
| `ManagerModel.DisconnectedStaysDisconnected` | manager.py:80-83 | a "disconnected" record stays exactly as it is, through sweeps and closes, until a registration, channel open or heartbeat for that id |
| `ManagerModel.SilentWorkerKeepsStamp` | manager.py:80-92 | events that do not concern a worker keep its identity and heartbeat and never make it "disconnected" |
| `ManagerModel.SilentWorkerIsDemoted` | manager.py:86-92 | a worker that is not "disconnected" and has nothing more to do with any event becomes "not_responding" at the first sweep past its timeout |
| `ManagerModel.NeverHeartbeatingWorkerIsDemoted` | manager.py:134-141 | registered at 0, channel opened, no heartbeat: a sweep at 15 leaves it "connected", one at 20 makes it "not_responding" |
| `ManagerModel.LateHeartbeatRevivesWorker` | manager.py:69-92 | a worker last heard at 0 becomes "not_responding" in a sweep at 16, and "alive" with heartbeat 17 after a message at 17 |
| `ManagerModel.FreshHeartbeatSurvivesSweep` | manager.py:86-92 | a heartbeat followed by a sweep within the timeout leaves the worker "alive" |
| `ManagerModel.CloseAfterReplacedChannelLeavesWorkerAlive` | manager.py:52-63 | open, reopen, close, heartbeat, close for one id ends with no channel and status "alive" |
| `Manager.ConnectionManager.constructor` | manager.py:43-46 | no connections and an empty store |
| `Manager.ConnectionManager.Connect` | manager.py:52-56 | the connection map maps the id to the new handle, other entries unchanged |
| `Manager.ConnectionManager.Disconnect` | manager.py:58-63 | the new state is `Close` of the old one |
| `Manager.ConnectionManager.UpdateWorkerStatus` | manager.py:65-67 | the workers hash becomes `SetStatus` of the old one |
| `Manager.ConnectionManager.ProcessHeartbeat` | manager.py:69-71 | the new state is the heartbeat step of the old one, independent of the payload |
| `Manager.ConnectionManager.CheckWorkerStatus` | manager.py:77-92 | one pass of the monitoring loop leaves the state the `Sweep` step of the old one and keeps every record stamped |
| `Manager.RegisterWorkerEndpoint` | manager.py:134-149 | replies success echoing the worker id; the new state is the registration step of the old one |
| `Manager.WebsocketEndpoint` | manager.py:152-170 | the state after a session is the run of open, one heartbeat per received message, and close |

## Left out

- The worker agent (worker.py): HTTP registration, the heartbeat loop with its reconnect delay and task cancellation, simulated metrics and host-name lookup are network I/O and scheduling.
- The Redis client and the connect-or-fall-back logic (redis_helper.py:67-90). They are an external service. The model starts from the in-memory store.
- The broad exception handlers that return False, None, `{}` or an error reply. The in-memory store never raises, so `RegisterWorker` always succeeds, and the error reply of `/register` is unreachable in the model.
- Interleavings between concurrent handlers and the sweep. Each handler step and each sweep is atomic here, so the last-writer-wins races on a record are not represented.
- The monitor's `while True` loop with its 5-second sleep, and `start_monitoring`. They are scheduling; one pass is `CheckWorkerStatus`.
- ManagerModel.Sweep: a record with no `last_heartbeat` key is skipped, whereas the code raises KeyError there and ends the whole pass, leaving later workers undemoted. No stored record can lack the key: registration always stamps it (`RunKeepsConsistent`), and `CheckWorkerStatus` requires that invariant. The value-level sweep and the lemmas built on it (`SilentWorkerIsDemoted`, `FreshHeartbeatSurvivesSweep`, `LateHeartbeatRevivesWorker`) are nevertheless stated for any state, where this difference would show.
- Timestamps as ISO strings and float seconds are replaced by integer seconds. A malformed timestamp, which would raise and end that sweep pass early, is not modelled.
- Records are fixed to the fields of the request model. A dictionary lacking `status`, or carrying other keys, handed straight to `register_worker` is not modelled. Reading its status would raise in the sweep.
- Aliasing: `hgetall` returns the live inner dictionary, and `register_worker` adds `last_heartbeat` to the caller's own dictionary. The model returns and stores values.
- The sweep visits workers in an arbitrary order instead of dictionary order. Each worker is visited once and only its own record changes, so the result does not depend on the order.
- Request validation by the web framework (a rejected body never reaches `/register`), `websocket.accept`, JSON reception, logging, the `/` and `/workers` routes, CORS and server start-up are framework plumbing.
