/**
 * The keyed-hash store and the worker registry built on it.
 *
 * The store maps a hash name to a map from key to value (Redis HSET/HGET/
 * HGETALL). The registry keeps every worker record in the hash "workers",
 * keyed by worker id, and updates it by read-modify-write.
 */
module RedisHelper {
  import opened Wrappers
  import opened Records

  /** The hash that holds the worker records. */
  const WORKERS := "workers"

  /** Hash name -> key -> value. */
  type Store<V> = map<string, map<string, V>>

  /** The fields of hash `h`; a hash that was never written reads as empty. */
  function Hash<V>(data: Store<V>, h: string): map<string, V> {
    if h in data then data[h] else map[]
  }

  /** The value under key `k` of hash `h`, if both exist. */
  function Get<V>(data: Store<V>, h: string, k: string): (r: Option<V>)
    ensures h !in data ==> r == None
    ensures h in data ==> (r.Some? <==> k in data[h])
    ensures r.Some? ==> r.value == data[h][k]
  {
    if k in Hash(data, h) then Some(Hash(data, h)[k]) else None
  }

  /** The store after setting key `k` of hash `h` to `v`, creating the hash if needed. */
  function Put<V>(data: Store<V>, h: string, k: string, v: V): (r: Store<V>)
    ensures Get(r, h, k) == Some(v)
    ensures forall h', k' :: h' != h || k' != k ==> Get(r, h', k') == Get(data, h', k')
    ensures r.Keys == data.Keys + {h}
  {
    data[h := Hash(data, h)[k := v]]
  }

  /** Only the "workers" hash differs between the two stores. */
  ghost predicate OthersUnchanged<V>(before: Store<V>, after: Store<V>) {
    after - {WORKERS} == before - {WORKERS}
  }

  /** Every stored record has a `last_heartbeat` entry (possibly a false one). */
  predicate AllStamped(ws: map<string, WorkerRecord>) {
    forall id :: id in ws ==> ws[id].lastHeartbeat != Absent
  }

  /**
   * The worker map after registering `rec` under `id` at time `now`: an
   * upsert that supplies `last_heartbeat` only when the record has none.
   */
  function Upsert(ws: map<string, WorkerRecord>, id: string, rec: WorkerRecord, now: int)
    : (r: map<string, WorkerRecord>)
    ensures r.Keys == ws.Keys + {id}
    ensures |r| == if id in ws then |ws| else |ws| + 1
    ensures r[id] == rec.(lastHeartbeat := r[id].lastHeartbeat)
    ensures r[id].lastHeartbeat == if rec.lastHeartbeat == Absent then At(now) else rec.lastHeartbeat
    ensures forall other :: other in ws && other != id ==> r[other] == ws[other]
    ensures AllStamped(ws) ==> AllStamped(r)
  {
    ws[id := if rec.lastHeartbeat == Absent then rec.(lastHeartbeat := At(now)) else rec]
  }

  /**
   * The worker map after a heartbeat update of `id` at time `now`: the record
   * gets `status` and a fresh `last_heartbeat`; an unknown id changes nothing.
   */
  function Touch(ws: map<string, WorkerRecord>, id: string, status: string, now: int)
    : (r: map<string, WorkerRecord>)
    ensures r.Keys == ws.Keys
    ensures id in ws ==> SameIdentity(r[id], ws[id]) && r[id].status == status && r[id].lastHeartbeat == At(now)
    ensures forall other :: other in ws && other != id ==> r[other] == ws[other]
    ensures id !in ws ==> r == ws
    ensures AllStamped(ws) ==> AllStamped(r)
  {
    if id in ws then ws[id := ws[id].(status := status, lastHeartbeat := At(now))] else ws
  }

  /**
   * The worker map after a status update of `id`: only that record's status
   * changes; an unknown id changes nothing.
   */
  function SetStatus(ws: map<string, WorkerRecord>, id: string, status: string)
    : (r: map<string, WorkerRecord>)
    ensures r.Keys == ws.Keys
    ensures id in ws ==> SameIdentity(r[id], ws[id]) && r[id].status == status && r[id].lastHeartbeat == ws[id].lastHeartbeat
    ensures forall other :: other in ws && other != id ==> r[other] == ws[other]
    ensures id !in ws ==> r == ws
    ensures AllStamped(ws) ==> AllStamped(r)
  {
    if id in ws then ws[id := ws[id].(status := status)] else ws
  }

  /** The in-memory stand-in for Redis: a nested dictionary updated in place. */
  class InMemoryRedis<V> {
    var data: Store<V>

    constructor()
      ensures data == map[]
    {
      data := map[];
    }

    /** HSET: always reports one field written. */
    method HSet(hashName: string, key: string, value: V) returns (n: int)
      modifies this
      ensures n == 1
      ensures data == Put(old(data), hashName, key, value)
    {
      if hashName !in data {
        data := data[hashName := map[]];
      }
      data := data[hashName := data[hashName][key := value]];
      n := 1;
    }

    /** HGET: None when the hash or the key is missing. */
    method HGet(hashName: string, key: string) returns (r: Option<V>)
      ensures r == Get(data, hashName, key)
    {
      if hashName !in data || key !in data[hashName] {
        return None;
      }
      return Some(data[hashName][key]);
    }

    /** HGETALL: the whole hash, empty when it is missing. */
    method HGetAll(hashName: string) returns (r: map<string, V>)
      ensures hashName !in data ==> r == map[]
      ensures hashName in data ==> r == data[hashName]
    {
      if hashName !in data {
        return map[];
      }
      return data[hashName];
    }
  }

  /** Worker operations over the "workers" hash of an in-memory store. */
  class RedisManager {
    const pool: InMemoryRedis<WorkerRecord>

    /** The manager once `connect` has settled on the in-memory store. */
    constructor()
      ensures fresh(pool) && pool.data == map[]
    {
      pool := new InMemoryRedis();
    }

    /** The records of the "workers" hash. */
    function Workers(): map<string, WorkerRecord>
      reads pool
    {
      Hash(pool.data, WORKERS)
    }

    /** Upsert the record of `workerId`; `now` is the clock reading. */
    method RegisterWorker(workerId: string, workerData: WorkerRecord, now: int) returns (ok: bool)
      modifies pool
      ensures ok
      ensures Workers() == Upsert(old(Workers()), workerId, workerData, now)
      ensures pool.data == old(pool.data)[WORKERS := Workers()]
    {
      var record := workerData;
      if record.lastHeartbeat == Absent {
        record := record.(lastHeartbeat := At(now));
      }
      var _ := pool.HSet(WORKERS, workerId, record);
      ok := true;
    }

    /** Set status and refresh `last_heartbeat` of a known worker. */
    method UpdateWorkerHeartbeat(workerId: string, now: int, status: string := ALIVE) returns (ok: bool)
      modifies pool
      ensures ok <==> workerId in old(Workers())
      ensures Workers() == Touch(old(Workers()), workerId, status, now)
      ensures pool.data == if ok then old(pool.data)[WORKERS := Workers()] else old(pool.data)
    {
      var workerData := pool.HGet(WORKERS, workerId);
      if workerData.Some? {
        var workerInfo := workerData.value;
        workerInfo := workerInfo.(status := status);
        workerInfo := workerInfo.(lastHeartbeat := At(now));
        var _ := pool.HSet(WORKERS, workerId, workerInfo);
        ok := true;
      } else {
        ok := false;
      }
    }

    /** Set the status of a known worker. */
    method UpdateWorkerStatus(workerId: string, status: string) returns (ok: bool)
      modifies pool
      ensures ok <==> workerId in old(Workers())
      ensures Workers() == SetStatus(old(Workers()), workerId, status)
      ensures pool.data == if ok then old(pool.data)[WORKERS := Workers()] else old(pool.data)
    {
      var workerData := pool.HGet(WORKERS, workerId);
      if workerData.Some? {
        var workerInfo := workerData.value;
        workerInfo := workerInfo.(status := status);
        var _ := pool.HSet(WORKERS, workerId, workerInfo);
        ok := true;
      } else {
        ok := false;
      }
    }

    /** The record of `workerId`, or None for an unknown id. */
    method GetWorker(workerId: string) returns (r: Option<WorkerRecord>)
      ensures r.None? <==> workerId !in Workers()
      ensures r.Some? ==> r.value == Workers()[workerId]
    {
      var workerData := pool.HGet(WORKERS, workerId);
      if workerData.Some? {
        return Some(workerData.value);
      }
      return None;
    }

    /** A copy of the whole "workers" hash, built entry by entry. */
    method GetAllWorkers() returns (result: map<string, WorkerRecord>)
      ensures result.Keys == Workers().Keys
      ensures forall id :: id in result ==> result[id] == Workers()[id]
    {
      var workers := pool.HGetAll(WORKERS);
      result := map[];
      var pending := workers.Keys;
      while pending != {}
        invariant pending <= workers.Keys
        invariant result.Keys == workers.Keys - pending
        invariant forall id :: id in result ==> result[id] == workers[id]
        decreases pending
      {
        var workerId :| workerId in pending;
        result := result[workerId := workers[workerId]];
        pending := pending - {workerId};
      }
    }
  }
}
