/**
 * A node of a bot pool: it announces itself on the pool channel once per
 * heartbeat period with its running jobs and spare capacity, starts and
 * stops jobs on command messages addressed to its node id, and leaves a
 * shutdown note listing the jobs it stopped.
 */
module PoolController {
  import opened Octets
  import opened Wrappers
  import opened J = Json

  /** `size_t` arithmetic wraps modulo 2^64. */
  const SizeModulus: nat := 0x1_0000_0000_0000_0000

  /** `_max_streams_capacity - jobs.size()` in `size_t`. */
  function Capacity(maxCapacity: nat, running: nat): (c: nat)
    requires maxCapacity < SizeModulus && running < SizeModulus
    ensures c < SizeModulus
    ensures running <= maxCapacity ==> c == maxCapacity - running
    ensures running > maxCapacity ==> c == SizeModulus - (running - maxCapacity)
  {
    (maxCapacity - running) % SizeModulus
  }

  /** A node running more jobs than its capacity advertises a huge spare capacity. */
  lemma OverCapacityWraps()
    ensures Capacity(1, 2) == 0xffff_ffff_ffff_ffff
  {
  }

  /** The heartbeat message: the node, its jobs and its spare capacity for
    * its job type, as an object in key order. */
  function Heartbeat(nodeId: Octets, jobType: Octets, maxCapacity: nat, jobs: seq<J.Json>): (hb: J.Json)
    requires maxCapacity < SizeModulus && |jobs| < SizeModulus
    ensures hb.JObject? && J.Sorted(hb.members)
  {
    KeysInOrder();
    J.JObject(HeartbeatMembers(nodeId, jobType, maxCapacity, jobs))
  }

  function HeartbeatMembers(nodeId: Octets, jobType: Octets, maxCapacity: nat, jobs: seq<J.Json>): (ms: seq<Member>)
    requires maxCapacity < SizeModulus && |jobs| < SizeModulus
    ensures |ms| == 3 && J.Sorted(ms)
  {
    KeysInOrder();
    [Member("active_jobs", JArray(jobs)),
     Member("available_capacity", JObject([Member(jobType, JUnsigned(Capacity(maxCapacity, |jobs|)))])),
     Member("from", JString(nodeId))]
  }

  /** The order of the message keys. */
  lemma KeysInOrder()
    ensures KeyLess("active_jobs", "available_capacity") && KeyLess("available_capacity", "from")
    ensures KeyLess("active_jobs", "from")
    ensures KeyLess("from", "job_type") && KeyLess("job_type", "reason") && KeyLess("reason", "stopped_jobs")
    ensures KeyLess("from", "reason") && KeyLess("from", "stopped_jobs") && KeyLess("job_type", "stopped_jobs")
    ensures forall m: Member :: J.Sorted([m])
  {
    SortedThree(Member("active_jobs", JNull), Member("available_capacity", JNull), Member("from", JNull));
  }

  /** The heartbeat carries exactly "from", "active_jobs" and "available_capacity". */
  lemma HeartbeatFields(nodeId: Octets, jobType: Octets, maxCapacity: nat, jobs: seq<J.Json>)
    requires maxCapacity < SizeModulus && |jobs| < SizeModulus
    ensures var ms := HeartbeatMembers(nodeId, jobType, maxCapacity, jobs);
      && |ms| == 3
      && J.Find(ms, "from") == Some(JString(nodeId))
      && J.Find(ms, "active_jobs") == Some(JArray(jobs))
      && J.Find(ms, "available_capacity")
           == Some(JObject([Member(jobType, JUnsigned(Capacity(maxCapacity, |jobs|)))]))
  {
    var ms := HeartbeatMembers(nodeId, jobType, maxCapacity, jobs);
    var tail := [ms[2]];
    assert ms[1..] == [ms[1]] + tail && ms[2..] == tail;
    assert J.Find(tail, "from") == Some(JString(nodeId));
    assert J.Find(ms[1..], "from") == Some(JString(nodeId));
    assert J.Find(ms[1..], "available_capacity") == Some(ms[1].value);
  }

  /** The shutdown note: the node, its job type, the reason and the jobs it stopped. */
  function ShutdownNote(nodeId: Octets, jobType: Octets, stopped: J.Json): (note: J.Json)
    ensures note.JObject? && J.Sorted(note.members)
  {
    KeysInOrder();
    SortedFour(Member("from", JNull), Member("job_type", JNull), Member("reason", JNull), Member("stopped_jobs", JNull));
    J.JObject(ShutdownMembers(nodeId, jobType, stopped))
  }

  function ShutdownMembers(nodeId: Octets, jobType: Octets, stopped: J.Json): seq<Member>
  {
    [Member("from", JString(nodeId)),
     Member("job_type", JString(jobType)),
     Member("reason", JString("shutdown")),
     Member("stopped_jobs", stopped)]
  }

  lemma ShutdownNoteFields(nodeId: Octets, jobType: Octets, stopped: J.Json)
    ensures var ms := ShutdownMembers(nodeId, jobType, stopped);
      && |ms| == 4
      && J.Find(ms, "from") == Some(JString(nodeId))
      && J.Find(ms, "job_type") == Some(JString(jobType))
      && J.Find(ms, "reason") == Some(JString("shutdown"))
      && J.Find(ms, "stopped_jobs") == Some(stopped)
  {
    var ms := ShutdownMembers(nodeId, jobType, stopped);
    var t3 := [ms[3]];
    var t2 := [ms[2]] + t3;
    var t1 := [ms[1]] + t2;
    assert ms[1..] == t1 && t1[1..] == t2 && t2[1..] == t3;
    assert J.Find(t3, "stopped_jobs") == Some(stopped);
    assert J.Find(t2, "stopped_jobs") == Some(stopped);
    assert J.Find(t2, "reason") == Some(JString("shutdown"));
    assert J.Find(t1, "stopped_jobs") == Some(stopped);
    assert J.Find(t1, "reason") == Some(JString("shutdown"));
    assert J.Find(t1, "job_type") == Some(JString(jobType));
  }

  /** What a message on the pool channel asks of this node. */
  datatype Command = StartJob(job: J.Json) | StopJob(job: J.Json) | UnknownCommand | NotAddressed

  /** Whether a message is an object whose "to" is this node's id. */
  predicate AddressedTo(msg: J.Json, nodeId: Octets)
    ensures AddressedTo(msg, nodeId) ==> msg.JObject? && "to" in J.Keys(msg.members)
    ensures AddressedTo(msg, nodeId) <==>
      msg.JObject? && "to" in J.Keys(msg.members) && Subscript(msg.members, "to") == JString(nodeId)
  {
    msg.JObject? && J.Find(msg.members, "to") == Some(JString(nodeId))
  }

  /** `msg[key]` on a non-const object: the value, or null (which the
    * library inserts) when the key is missing. */
  function Subscript(ms: seq<Member>, key: Octets): (v: J.Json)
    ensures key !in J.Keys(ms) ==> v == JNull
    ensures key in J.Keys(ms) ==> Member(key, v) in ms
  {
    match J.Find(ms, key)
    case Some(v) => J.FindIsMember(ms, key); v
    case None => JNull
  }

  /** `on_data` as written: the stop branch tests the key "stob_job" but
    * passes on the value under "stop_job". */
  function DispatchAsWritten(msg: J.Json, nodeId: Octets): (c: Command)
    ensures !AddressedTo(msg, nodeId) <==> c.NotAddressed?
  {
    if !AddressedTo(msg, nodeId) then NotAddressed
    else if J.Find(msg.members, "start_job").Some? then StartJob(Subscript(msg.members, "start_job"))
    else if J.Find(msg.members, "stob_job").Some? then StopJob(Subscript(msg.members, "stop_job"))
    else UnknownCommand
  }

  /** `on_data` with the stop branch testing "stop_job", the key it reads. */
  function Dispatch(msg: J.Json, nodeId: Octets): (c: Command)
    ensures !AddressedTo(msg, nodeId) <==> c.NotAddressed?
    ensures c.StartJob? <==> AddressedTo(msg, nodeId) && J.Find(msg.members, "start_job").Some?
    ensures c.StartJob? ==> Some(c.job) == J.Find(msg.members, "start_job")
    ensures c.StopJob? <==>
      AddressedTo(msg, nodeId) && J.Find(msg.members, "start_job").None? && J.Find(msg.members, "stop_job").Some?
    ensures c.StopJob? ==> Some(c.job) == J.Find(msg.members, "stop_job")
  {
    if !AddressedTo(msg, nodeId) then NotAddressed
    else if J.Find(msg.members, "start_job").Some? then StartJob(Subscript(msg.members, "start_job"))
    else if J.Find(msg.members, "stop_job").Some? then StopJob(Subscript(msg.members, "stop_job"))
    else UnknownCommand
  }

  /** The two dispatchers differ only on stop commands. */
  lemma DispatchersAgreeOnStart(msg: J.Json, nodeId: Octets)
    requires !AddressedTo(msg, nodeId) || J.Find(msg.members, "start_job").Some?
    ensures DispatchAsWritten(msg, nodeId) == Dispatch(msg, nodeId)
  {
  }

  /** As written, a stop command {"to": id, "stop_job": job} is never
    * dispatched: it is reported as an unknown command. */
  lemma StopJobIgnoredAsWritten(nodeId: Octets, job: J.Json)
    ensures var msg := JObject([Member("stop_job", job), Member("to", JString(nodeId))]);
      && DispatchAsWritten(msg, nodeId) == UnknownCommand
      && Dispatch(msg, nodeId) == StopJob(job)
  {
    var ms := [Member("stop_job", job), Member("to", JString(nodeId))];
    assert ms[1..] == [Member("to", JString(nodeId))];
    assert J.Find(ms, "to") == Some(JString(nodeId));
    assert J.Find(ms, "start_job") == None;
    assert J.Find(ms, "stob_job") == None;
  }

  /** As written, a message carrying the misspelt key stops the job null. */
  lemma StobJobStopsNullAsWritten(nodeId: Octets, job: J.Json)
    ensures var msg := JObject([Member("stob_job", job), Member("to", JString(nodeId))]);
      DispatchAsWritten(msg, nodeId) == StopJob(JNull)
  {
    var ms := [Member("stob_job", job), Member("to", JString(nodeId))];
    assert ms[1..] == [Member("to", JString(nodeId))];
    assert J.Find(ms, "to") == Some(JString(nodeId));
    assert J.Find(ms, "start_job") == None;
    assert J.Find(ms, "stop_job") == None;
  }

  class PoolJobController {
    const pool: Octets
    const jobType: Octets
    const maxCapacity: nat
    const nodeId: Octets
    var subscribed: bool
    var timerArmed: bool
    var published: seq<J.Json>
    var posted: seq<J.Json>
    var added: seq<J.Json>
    var removed: seq<J.Json>

    /** `node_id` is the decimal text of a random 64-bit number, drawn once per process. */
    constructor (pool: Octets, jobType: Octets, maxCapacity: nat, nodeNumber: nat)
      requires maxCapacity < SizeModulus && nodeNumber < SizeModulus
      ensures this.pool == pool && this.jobType == jobType && this.maxCapacity == maxCapacity
      ensures nodeId == Decimal(nodeNumber)
      ensures !subscribed && !timerArmed && published == [] && posted == [] && added == [] && removed == []
    {
      this.pool := pool;
      this.jobType := jobType;
      this.maxCapacity := maxCapacity;
      nodeId := Decimal(nodeNumber);
      subscribed := false;
      timerArmed := false;
      published := [];
      posted := [];
      added := [];
      removed := [];
    }

    /** `start`: subscribes to the pool channel, creates the timer and
      * sends the first heartbeat. */
    method Start(jobs: seq<J.Json>)
      requires maxCapacity < SizeModulus && |jobs| < SizeModulus
      modifies this
      ensures subscribed && timerArmed
      ensures published == old(published) + [Heartbeat(nodeId, jobType, maxCapacity, jobs)]
      ensures posted == old(posted) && added == old(added) && removed == old(removed)
    {
      subscribed := true;
      timerArmed := true;
      OnHeartbeat(jobs);
    }

    /** `on_heartbeat`: re-arms the timer and publishes the heartbeat for
      * the jobs the job controller lists. */
    method OnHeartbeat(jobs: seq<J.Json>)
      requires timerArmed
      requires maxCapacity < SizeModulus && |jobs| < SizeModulus
      modifies this
      ensures timerArmed && subscribed == old(subscribed)
      ensures published == old(published) + [Heartbeat(nodeId, jobType, maxCapacity, jobs)]
      ensures posted == old(posted) && added == old(added) && removed == old(removed)
    {
      published := published + [Heartbeat(nodeId, jobType, maxCapacity, jobs)];
    }

    /** `shutdown`: posts the publication of the shutdown note to the event loop. */
    method Shutdown(stopped: J.Json)
      modifies this
      ensures posted == old(posted) + [ShutdownNote(nodeId, jobType, stopped)]
      ensures published == old(published) && added == old(added) && removed == old(removed)
      ensures subscribed == old(subscribed) && timerArmed == old(timerArmed)
    {
      posted := posted + [ShutdownNote(nodeId, jobType, stopped)];
    }

    /** `on_data`: a command addressed to this node starts or stops a job. */
    method OnData(msg: J.Json)
      modifies this
      ensures var c := Dispatch(msg, nodeId);
        && added == old(added) + (if c.StartJob? then [c.job] else [])
        && removed == old(removed) + (if c.StopJob? then [c.job] else [])
      ensures published == old(published) && posted == old(posted)
      ensures subscribed == old(subscribed) && timerArmed == old(timerArmed)
    {
      var c := Dispatch(msg, nodeId);
      match c
      case StartJob(job) => added := added + [job];
      case StopJob(job) => removed := removed + [job];
      case _ =>
    }

    /** The destructor: a started controller leaves the pool channel. */
    method Close()
      modifies this
      ensures subscribed == (old(subscribed) && !old(timerArmed))
      ensures timerArmed == old(timerArmed)
      ensures published == old(published) && posted == old(posted)
      ensures added == old(added) && removed == old(removed)
    {
      if timerArmed {
        subscribed := false;
      }
    }
  }
}
