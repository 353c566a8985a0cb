/**
 * The worker record: the shape of the `WorkerInfo` request model and of the
 * dictionary the coordinator stores (serialised) under each worker id.
 * Serialisation is the identity here, so the stored value is the record itself.
 */
module Records {

  // Status strings the coordinator itself writes. Status is never validated:
  // any string a worker sends at registration is stored as it is.
  const REGISTERED := "registered"
  const CONNECTED := "connected"
  const ALIVE := "alive"
  const NOT_RESPONDING := "not_responding"
  const DISCONNECTED := "disconnected"

  /** Default liveness threshold in seconds (the `HEARTBEAT_TIMEOUT` setting). */
  const DEFAULT_HEARTBEAT_TIMEOUT := 15

  /**
   * The `last_heartbeat` entry of a record dictionary.
   *   Absent     the dictionary has no such key;
   *   Blank      the key holds a false value (None or the empty string);
   *   At(s)      the key holds a timestamp, here in whole seconds.
   */
  datatype Stamp = Absent | Blank | At(seconds: int)

  /** True when the sweep's truthiness test on `last_heartbeat` passes. */
  predicate IsSet(stamp: Stamp) {
    stamp.At?
  }

  /**
   * A worker record. The defaults are those of the request model: a request
   * without `status` is stored as "registered", one without `last_heartbeat`
   * carries None.
   */
  datatype WorkerRecord = WorkerRecord(
    workerId: string,
    workerName: string,
    host: string,
    port: int,
    status: string := REGISTERED,
    lastHeartbeat: Stamp := Blank)

  /** Two records agree on everything except `status` and `last_heartbeat`. */
  predicate SameIdentity(a: WorkerRecord, b: WorkerRecord) {
    a.workerId == b.workerId && a.workerName == b.workerName && a.host == b.host && a.port == b.port
  }
}
