/** The client's process-wide state (kafka.c:32-39) and the operations that
    read and change it: the one handle slot and its lazy creation, teardown,
    the running flag, the setters, produce with its delivery wait, consume with
    its pull loop, and the metadata queries. Every answer of the transport is
    an argument. */
module Kafka {
  import opened Base
  import opened Rdkafka
  import opened OffsetToken
  import opened MessageFlow

  /** An rd_kafka_t: its identity, the role it was created for and the broker
      list it was given. */
  class Handle {
    const kind: HandleType
    const brokers: string

    constructor (kind: HandleType, brokers: string)
      ensures this.kind == kind && this.brokers == brokers
    {
      this.kind := kind;
      this.brokers := brokers;
    }
  }

  /** The transport's answers when a handle is created: whether rd_kafka_new
      returned one, and how many brokers rd_kafka_brokers_add accepted. */
  datatype Creation = Creation(created: bool, brokersAdded: int) {
    /** Neither exit(1) of kafka_init is taken. */
    predicate Succeeds() { created && brokersAdded != 0 }
  }

  /** Whether an operation returns to its caller, or ends the process with
      exit(1). */
  datatype Completion = Returned | Exited

  /** A request handed to the transport. */
  datatype Request =
    | ProduceTo(handle: Handle, topic: string, partition: int, payload: seq<byte>)
    | ConsumeFrom(handle: Handle, topic: string, partition: int, offset: int)

  /** The handles a destroy of `h` releases: none for NULL. */
  function Released(h: Handle?): seq<Handle>
  {
    if h == null then [] else [h]
  }

  /** The consume_start requests of kafka_partition_offsets for partitions
      0 .. n-1, each from the beginning. */
  function ProbeStarts(h: Handle, topic: string, n: nat): seq<Request>
  {
    if n == 0 then [] else ProbeStarts(h, topic, n - 1) + [ConsumeFrom(h, topic, n - 1, OffsetBeginning)]
  }

  /** The number of out-queue checks that find messages still queued before
      the first check that finds the queue empty. */
  function QueuedChecks(outq: seq<nat>): (k: nat)
    requires 0 in outq
    ensures k < |outq| && outq[k] == 0
    ensures forall j :: 0 <= j < k ==> outq[j] > 0
  {
    if outq[0] == 0 then 0 else 1 + QueuedChecks(outq[1..])
  }

  /** The partition count kafka_partition_count reports for a metadata answer. */
  function CountOf(meta: Option<int>): int
  {
    if meta.Some? then meta.value else 0
  }

  class Client {
    /** `run`: cleared by kafka_stop and by msg_consume; nothing sets it again. */
    var run: bool
    var logLevel: int
    /** `rk`: the handle slot. */
    var rk: Handle?
    /** `rk_type`: compared in kafka_init, never assigned. */
    var rkType: int
    var exitEof: bool
    var brokers: string
    var startOffset: int
    var partition: int
    /** Every handle handed to rd_kafka_destroy, in order. */
    ghost var destroyed: seq<Handle>
    /** Every produce and consume_start request issued, in order. */
    ghost var requests: seq<Request>

    ghost predicate Valid()
      reads this
    {
      rkType == Producer &&
      IsInt64(startOffset) &&
      (rk != null ==> rk !in destroyed) &&
      (forall i, j :: 0 <= i < j < |destroyed| ==> destroyed[i] != destroyed[j])
    }

    /** The initial values of the globals (kafka.c:32-39); `rk_type` has
        static storage and so starts at 0, which is RD_KAFKA_PRODUCER. */
    constructor ()
      ensures Valid()
      ensures run && logLevel == 1 && rk == null && rkType == Producer && exitEof
      ensures brokers == "localhost:9092" && startOffset == 0 && partition == PartitionUnassigned
      ensures destroyed == [] && requests == []
    {
      run := true;
      logLevel := 1;
      rk := null;
      rkType := 0;
      exitEof := true;
      brokers := "localhost:9092";
      startOffset := 0;
      partition := PartitionUnassigned;
      destroyed := [];
      requests := [];
    }

    /** kafka_connect and kafka_setup: the broker list later handles use. */
    method Connect(brokerList: string)
      modifies this`brokers
      ensures brokers == brokerList
    {
      brokers := brokerList;
    }

    method SetLogLevel(level: int)
      requires IsInt32(level)
      modifies this`logLevel
      ensures logLevel == level
    {
      logLevel := level;
    }

    method SetPartition(selected: int)
      requires IsInt32(selected)
      modifies this`partition
      ensures partition == selected
    {
      partition := selected;
    }

    /** kafka_is_connected: 1 exactly when the slot holds a handle, else 0. */
    method IsConnected() returns (connected: int)
      ensures connected == 1 <==> rk != null
      ensures connected == 0 <==> rk == null
    {
      connected := if rk == null then 0 else 1;
    }

    /** kafka_stop: clear the running flag and destroy whatever the slot holds. */
    method Stop()
      requires Valid()
      modifies this`run, this`rk, this`destroyed
      ensures Valid()
      ensures !run && rk == null
      ensures destroyed == old(destroyed) + Released(old(rk))
    {
      run := false;
      if rk != null {
        destroyed := destroyed + [rk];
      }
      rk := null;
    }

    /** kafka_destroy: NULL or the slot's own handle empties the slot and
        destroys its old content once; any other handle is destroyed and the
        slot is left alone. */
    method Destroy(r: Handle?, timeout: int)
      requires Valid()
      requires r != null && r != rk ==> r !in destroyed
      modifies this`rk, this`destroyed
      ensures Valid()
      ensures r == null || r == old(rk) ==> rk == null && destroyed == old(destroyed) + Released(old(rk))
      ensures r != null && r != old(rk) ==> rk == old(rk) && destroyed == old(destroyed) + [r]
    {
      var h := r;
      if h == null || h == rk {
        h := rk;
        rk := null;
      }
      if h != null {
        destroyed := destroyed + [h];
      }
    }

    /** kafka_init: a request for a role other than `rk_type` first destroys
        the slot's handle; an empty slot then gets a fresh handle. Because
        `rk_type` stays RD_KAFKA_PRODUCER, a consumer request always replaces
        the handle and a producer request reuses any handle it finds. */
    method Init(kind: HandleType, creation: Creation) returns (c: Completion)
      requires Valid()
      modifies this`rk, this`destroyed
      ensures Valid()
      ensures kind != rkType ==> destroyed == old(destroyed) + Released(old(rk))
      ensures kind == rkType ==> destroyed == old(destroyed)
      ensures kind == rkType && old(rk) != null ==> c == Returned && rk == old(rk)
      ensures kind != rkType || old(rk) == null ==>
        (c == Returned <==> creation.Succeeds()) &&
        (c == Returned ==> fresh(rk) && rk.kind == kind && rk.brokers == brokers)
      ensures c == Returned ==> rk != null
    {
      if rkType != kind {
        Destroy(null, 1);
      }
      c := Returned;
      if rk == null {
        if !creation.created {
          c := Exited;
        } else {
          rk := new Handle(kind, brokers);
          if creation.brokersAdded == 0 {
            c := Exited;
          }
        }
      }
    }

    /** The `if (r == NULL) { kafka_init(RD_KAFKA_CONSUMER); r = rk; }` step
        the consumer-side operations share: the handle they go on with is the
        one given, or else a fresh consumer handle that replaces the slot's. */
    method ConsumerHandle(r: Handle?, creation: Creation) returns (c: Completion, h: Handle?)
      requires Valid()
      modifies this`rk, this`destroyed
      ensures Valid()
      ensures c == Returned <==> r != null || creation.Succeeds()
      ensures r != null ==> h == r && rk == old(rk) && destroyed == old(destroyed)
      ensures r == null ==> destroyed == old(destroyed) + Released(old(rk))
      ensures r == null && c == Returned ==> h == rk && fresh(rk) && rk.kind == Consumer
      ensures c == Returned ==> h != null
    {
      c := Returned;
      h := r;
      if h == null {
        c := Init(Consumer, creation);
        h := rk;
      }
    }

    /** kafka_produce: submit the payload to the unassigned partition (the
        local `partition` shadows the global one), poll once more after a
        refused submission, poll once, then poll until the flag is cleared or
        the out-queue is empty. `outq` holds what successive checks of
        rd_kafka_outq_len report; the result counts the poll calls. */
    method Produce(r: Handle?, topic: string, payload: seq<byte>, creation: Creation,
                   submitted: bool, outq: seq<nat>)
      returns (c: Completion, polls: nat)
      requires Valid()
      requires run ==> 0 in outq
      modifies this`rk, this`destroyed, this`requests
      ensures Valid()
      ensures destroyed == old(destroyed)
      ensures r != null || old(rk) != null ==> c == Returned && rk == old(rk)
      ensures r == null && old(rk) == null ==>
        (c == Returned <==> creation.Succeeds()) &&
        (c == Returned ==> fresh(rk) && rk.kind == Producer)
      ensures c == Returned ==>
        var h := if r == null then rk else r;
        h != null &&
        requests == old(requests) + [ProduceTo(h, topic, PartitionUnassigned, payload)] &&
        polls == (if submitted then 1 else 2) + (if run then QueuedChecks(outq) else 0)
    {
      polls := 0;
      c := Returned;
      var h := r;
      if h == null {
        c := Init(Producer, creation);
        if c == Exited {
          return;
        }
        h := rk;
      }
      requests := requests + [ProduceTo(h, topic, PartitionUnassigned, payload)];
      polls := if submitted then 1 else 2;
      var i := 0;
      while run && outq[i] > 0
        invariant run ==> i <= QueuedChecks(outq)
        invariant !run ==> i == 0
        invariant polls == (if submitted then 1 else 2) + i
        decreases if run then QueuedChecks(outq) - i else 0
      {
        polls := polls + 1;
        i := i + 1;
      }
    }

    /** msg_consume: the verdict on one message, and the flag cleared by an
        end-of-partition when exit_eof is set. */
    method MsgConsume(m: Message) returns (accepted: bool)
      modifies this`run
      ensures accepted == Accepts(m, logLevel)
      ensures run == (old(run) && !Halts(m, exitEof))
    {
      accepted := true;
      if m.err != ErrNoError {
        if m.err == ErrPartitionEof {
          if exitEof {
            run := false;
          }
          accepted := false;
        } else if logLevel != 0 {
          accepted := false;
        }
      }
    }

    /** kafka_get_topics: a consumer handle when none is given, then the topic
        to partition-count array of a successful metadata answer, or an empty
        one. */
    method GetTopics(r: Handle?, creation: Creation, meta: Option<seq<(string, int)>>)
      returns (c: Completion, topics: map<string, int>)
      requires Valid()
      modifies this`rk, this`destroyed
      ensures Valid()
      ensures c == Returned <==> r != null || creation.Succeeds()
      ensures r != null ==> c == Returned && rk == old(rk) && destroyed == old(destroyed)
      ensures r == null ==> destroyed == old(destroyed) + Released(old(rk))
      ensures r == null && c == Returned ==> fresh(rk) && rk.kind == Consumer
      ensures c == Returned ==> topics == if meta.Some? then Assoc(meta.value) else map[]
    {
      topics := map[];
      var h;
      c, h := ConsumerHandle(r, creation);
      if c == Exited {
        return;
      }
      if meta.Some? {
        var all := meta.value;
        var i := 0;
        while i < |all|
          invariant 0 <= i <= |all|
          invariant topics == Assoc(all[..i])
        {
          assert all[..i + 1][..i] == all[..i];
          topics := topics[all[i].0 := all[i].1];
          i := i + 1;
        }
        assert all[..|all|] == all;
      }
    }

    /** kafka_partition_count: a consumer handle when none is given, then the
        topic's partition count, or 0 when the metadata request fails. */
    method PartitionCount(r: Handle?, topic: string, creation: Creation, meta: Option<int>)
      returns (c: Completion, count: int)
      requires Valid()
      modifies this`rk, this`destroyed
      ensures Valid()
      ensures c == Returned <==> r != null || creation.Succeeds()
      ensures r != null ==> c == Returned && rk == old(rk) && destroyed == old(destroyed)
      ensures r == null ==> destroyed == old(destroyed) + Released(old(rk))
      ensures r == null && c == Returned ==> fresh(rk) && rk.kind == Consumer
      ensures c == Returned ==> count == CountOf(meta) && (meta.None? ==> count == 0)
    {
      count := 0;
      var h;
      c, h := ConsumerHandle(r, creation);
      if c == Exited {
        return;
      }
      count := if meta.Some? then meta.value else 0;
    }

    /** kafka_get_partitions: the indices 0 .. count-1, in order. */
    method GetPartitions(r: Handle?, topic: string, creation: Creation, meta: Option<int>)
      returns (c: Completion, partitions: seq<int>)
      requires Valid()
      modifies this`rk, this`destroyed
      ensures Valid()
      ensures c == Returned <==> r != null || creation.Succeeds()
      ensures r != null ==> c == Returned && rk == old(rk) && destroyed == old(destroyed)
      ensures r == null ==> destroyed == old(destroyed) + Released(old(rk))
      ensures r == null && c == Returned ==> fresh(rk) && rk.kind == Consumer
      ensures c == Returned ==>
        |partitions| == (if CountOf(meta) > 0 then CountOf(meta) else 0) &&
        forall i :: 0 <= i < |partitions| ==> partitions[i] == i
    {
      var count;
      partitions := [];
      c, count := PartitionCount(r, topic, creation, meta);
      if c == Exited {
        return;
      }
      var i := 0;
      while i < count
        invariant 0 <= i <= (if count > 0 then count else 0)
        invariant |partitions| == i
        invariant forall j :: 0 <= j < i ==> partitions[j] == j
      {
        partitions := partitions + [i];
        i := i + 1;
      }
    }

    /** kafka_partition_offsets: on a metadata answer with `n` partitions,
        a fresh array of `n` entries, entry `i` being what probing partition
        `i` from the beginning yields, and the result `n`; -1 with a NULL
        array when the reallocation fails; 0 with the array unchanged when the
        metadata request fails. The probes' msg_consume calls may clear the
        flag. */
    method PartitionOffsets(r: Handle?, values: array?<int>, topic: string, creation: Creation,
                            meta: Option<int>, reallocated: bool, probes: seq<Probe>)
      returns (c: Completion, ret: int, partitions: array?<int>)
      requires Valid()
      requires meta.Some? && reallocated ==> |probes| >= meta.value
      modifies this`run, this`rk, this`destroyed, this`requests
      ensures Valid()
      ensures c == Returned <==> r != null || creation.Succeeds()
      ensures r != null ==> c == Returned && rk == old(rk) && destroyed == old(destroyed)
      ensures r == null ==> destroyed == old(destroyed) + Released(old(rk))
      ensures r == null && c == Returned ==> fresh(rk) && rk.kind == Consumer
      ensures c == Returned && meta.None? ==>
        ret == 0 && partitions == values && run == old(run) && requests == old(requests)
      ensures c == Returned && meta.Some? && !reallocated ==>
        ret == -1 && partitions == null && run == old(run) && requests == old(requests)
      ensures c == Returned && meta.Some? && reallocated ==>
        var n := meta.value;
        ret == n && partitions != null && fresh(partitions) &&
        partitions.Length == (if n > 0 then n else 0) &&
        (forall i :: 0 <= i < partitions.Length ==> partitions[i] == ProbeOffset(i, probes[i], logLevel)) &&
        run == (old(run) && !AnyStop(probes[..partitions.Length], exitEof)) &&
        var h := if r == null then rk else r;
        h != null && requests == old(requests) + ProbeStarts(h, topic, partitions.Length)
    {
      ret := 0;
      partitions := values;
      var h;
      c, h := ConsumerHandle(r, creation);
      if c == Exited {
        return;
      }
      if meta.None? {
        return;
      }
      var n := meta.value;
      if !reallocated {
        partitions := null;
        ret := -1;
        return;
      }
      partitions := ProbeAll(h, topic, n, probes);
      ret := n;
    }

    /** The loop of kafka_partition_offsets (kafka.c:369-392): one entry per
        partition, each partition started from the beginning and probed once. */
    method ProbeAll(h: Handle, topic: string, n: int, probes: seq<Probe>) returns (offsets: array<int>)
      requires |probes| >= n
      modifies this`run, this`requests
      ensures fresh(offsets) && offsets.Length == (if n > 0 then n else 0)
      ensures forall i :: 0 <= i < offsets.Length ==> offsets[i] == ProbeOffset(i, probes[i], logLevel)
      ensures run == (old(run) && !AnyStop(probes[..offsets.Length], exitEof))
      ensures requests == old(requests) + ProbeStarts(h, topic, offsets.Length)
    {
      offsets := new int[if n > 0 then n else 0];
      var i := 0;
      while i < n
        invariant 0 <= i <= offsets.Length
        invariant forall j :: 0 <= j < i ==> offsets[j] == ProbeOffset(j, probes[j], logLevel)
        invariant run == (old(run) && !AnyStop(probes[..i], exitEof))
        invariant requests == old(requests) + ProbeStarts(h, topic, i)
        modifies offsets, this`run, this`requests
      {
        requests := requests + [ConsumeFrom(h, topic, i, OffsetBeginning)];
        offsets[i] := ProbePartition(i, probes[i]);
        AnyStopExtend(probes, i, exitEof);
        i := i + 1;
      }
    }

    /** kafka_consume: translate the offset argument into `start_offset`,
        take a consumer handle when none is given, start consuming the global
        partition (a failed start ends the process), then pull while the flag
        is set. `pulls` holds what successive rd_kafka_consume calls return,
        None for a timeout. The loop only ends with the flag cleared, so it is
        cleared when the call returns; the array holds what the pulls made
        before the loop stopped stored, a later message overwriting an
        earlier one with the same key. */
    method Consume(r: Handle?, topic: string, offset: string, itemCount: int, creation: Creation,
                   started: bool, pulls: seq<Option<Message>>)
      returns (c: Completion, result: map<int, seq<byte>>)
      requires Valid()
      requires run ==> PullsSuffice(pulls, itemCount, exitEof)
      modifies this`run, this`startOffset, this`rk, this`destroyed, this`requests
      ensures Valid()
      ensures c == Returned <==> (r != null || creation.Succeeds()) && started
      ensures startOffset == TranslateOffset(offset, old(startOffset))
      ensures r != null ==> rk == old(rk) && destroyed == old(destroyed)
      ensures r == null ==> destroyed == old(destroyed) + Released(old(rk))
      ensures r == null && c == Returned ==> fresh(rk) && rk.kind == Consumer
      ensures c == Returned ==> !run
      ensures c == Returned ==>
        result == if old(run) then Collect(pulls[..PullCount(pulls, itemCount, exitEof)], logLevel) else map[]
      ensures c == Returned ==>
        var h := if r == null then rk else r;
        h != null && requests == old(requests) + [ConsumeFrom(h, topic, partition, startOffset)]
    {
      result := map[];
      startOffset := TranslateOffset(offset, startOffset);
      var h;
      c, h := ConsumerHandle(r, creation);
      if c == Exited {
        return;
      }
      requests := requests + [ConsumeFrom(h, topic, partition, startOffset)];
      if !started {
        c := Exited;
        return;
      }
      ghost var slot, log := rk, requests;
      result := PullLoop(itemCount, pulls);
      assert rk == slot && requests == log;
    }

    /** The `while (run)` loop of kafka_consume (kafka.c:445-487): a positive
        `item_count` is counted down before each pull and its expiry clears
        the flag; each pulled message goes through msg_consume and, when
        accepted, is stored at its offset cast to int. */
    method PullLoop(itemCount: int, pulls: seq<Option<Message>>) returns (result: map<int, seq<byte>>)
      requires run ==> PullsSuffice(pulls, itemCount, exitEof)
      modifies this`run
      ensures !run
      ensures result == if old(run) then Collect(pulls[..PullCount(pulls, itemCount, exitEof)], logLevel) else map[]
    {
      result := map[];
      var counter := if itemCount != 0 then itemCount else 0;
      ghost var stop := FirstStop(pulls, exitEof);
      ghost var bounded := itemCount > 0 && itemCount <= stop;
      ghost var limit := if !run then 0 else if bounded then itemCount else stop + 1;
      var k := 0;
      while run
        invariant 0 <= k <= limit <= |pulls|
        invariant result == Collect(pulls[..k], logLevel)
        invariant !run ==> k == limit
        invariant run ==> k <= stop && (k < limit || (bounded && counter == 0))
        invariant itemCount > 0 && run ==> counter == itemCount - k && k <= itemCount
        invariant itemCount <= 0 ==> counter == itemCount
        decreases limit - k, run
      {
        var counted := false;
        if itemCount != 0 && counter >= 0 {
          counter := counter - 1;
          counted := counter == -1;
        }
        if counted {
          run := false;
        } else {
          CollectStep(pulls, k, logLevel);
          result := Take(result, pulls[k]);
          k := k + 1;
        }
      }
      assert old(run) ==> k == PullCount(pulls, itemCount, exitEof);
    }

    /** One pull of kafka_consume's loop (kafka.c:467-486): a message goes
        through msg_consume and, when accepted, is stored at its offset cast
        to int; a timeout changes nothing. */
    method Take(result: map<int, seq<byte>>, pull: Option<Message>) returns (next: map<int, seq<byte>>)
      modifies this`run
      ensures next == Put(result, pull, logLevel)
      ensures run == (old(run) && !IsStop(pull, exitEof))
    {
      next := result;
      if pull.Some? {
        var m := pull.value;
        var accepted := MsgConsume(m);
        if accepted {
          next := result[ToInt32(m.offset) := PayloadValue(m.payload)];
        }
      }
    }

    /** One partition of kafka_partition_offsets (kafka.c:371-391): -1 unless
        consume_start succeeds and a message arrives, then the verdict of
        msg_consume and the partition check decide. */
    method ProbePartition(i: int, probe: Probe) returns (v: int)
      modifies this`run
      ensures v == ProbeOffset(i, probe, logLevel)
      ensures run == (old(run) && !(probe.started && IsStop(probe.first, exitEof)))
    {
      v := -1;
      if probe.started && probe.first.Some? {
        var m := probe.first.value;
        var accepted := MsgConsume(m);
        if accepted {
          v := ToInt32(m.offset);
        } else if m.partition == i && m.err != ErrPartitionEof {
          v := ToInt32(m.offset);
        }
      }
    }
  }

  /** A consumer call followed by a producer call on a fresh client: the
      consumer's handle is created for RD_KAFKA_CONSUMER, and the producer,
      finding the slot filled, submits through that same handle. A second
      consumer call then destroys it. */
  method ConsumerHandleServesProducer(creation: Creation, pulls: seq<Option<Message>>, payload: seq<byte>)
    requires creation.Succeeds()
    requires PullsSuffice(pulls, 1, true)
  {
    var client := new Client();
    var c, _ := client.Consume(null, "t", "beginning", 1, creation, true, pulls);
    var first := client.rk;
    assert first != null && first.kind == Consumer;
    var polls;
    c, polls := client.Produce(null, "t", payload, creation, true, [0]);
    assert client.rk == first;
    assert client.requests[|client.requests| - 1] == ProduceTo(first, "t", PartitionUnassigned, payload);
    var partitions;
    c, partitions := client.GetPartitions(null, "t", creation, Some(3));
    assert first in client.destroyed && client.rk != first;
    assert client.rk != null && client.rk.kind == Consumer;
  }

  /** One more probe adds its own stop, if any, to the earlier ones. */
  lemma AnyStopExtend(probes: seq<Probe>, i: int, exitEof: bool)
    requires 0 <= i < |probes|
    ensures AnyStop(probes[..i + 1], exitEof) ==
      (AnyStop(probes[..i], exitEof) || (probes[i].started && IsStop(probes[i].first, exitEof)))
  {
  }
}
