/** What the consumer does with the messages it pulls: msg_consume's verdict on
    each message, the string stored for an accepted one, the offset-keyed array
    kafka_consume returns, how many pulls the loop makes before it stops, and
    the value kafka_partition_offsets records for one probed partition. */
module MessageFlow {
  import opened Base
  import opened Rdkafka

  predicate IsEof(m: Message) { m.err == ErrPartitionEof }

  /** msg_consume returns the message itself (kafka.c:242-269): when it carries
      no error, or when it carries an error other than end-of-partition while
      logging is off, since the early return sits inside the logging branch. */
  predicate Accepts(m: Message, logLevel: int)
    ensures Accepts(m, logLevel) ==> !IsEof(m)
    ensures Accepts(m, logLevel) && logLevel != 0 ==> m.err == ErrNoError
  {
    if m.err != ErrNoError then !IsEof(m) && logLevel == 0 else true
  }

  /** msg_consume clears the running flag for an end-of-partition message when
      exit_eof is set. */
  predicate Halts(m: Message, exitEof: bool)
    ensures Halts(m, exitEof) ==> exitEof && forall logLevel :: !Accepts(m, logLevel)
  {
    IsEof(m) && exitEof
  }

  /** msg_consume's verdict, in both directions: accepted exactly when there is
      no error, or a non-EOF error with logging off. */
  lemma AcceptsExactly(m: Message, logLevel: int)
    ensures Accepts(m, logLevel) <==> m.err == ErrNoError || (!IsEof(m) && logLevel == 0)
    ensures Halts(m, true) ==> !Accepts(m, logLevel)
    ensures m.err != ErrNoError && logLevel != 0 ==> !Accepts(m, logLevel)
  {
  }

  /** The bytes `sprintf("%.*s", n, payload)` copies: at most `n` of them, up
      to the first NUL. */
  function UntilNul(p: seq<byte>, n: int): (r: seq<byte>)
    ensures r <= p && 0 !in r
    ensures |r| <= (if n > 0 then n else 0)
    ensures |r| == |p| || |r| >= n || p[|r|] == 0
  {
    if n <= 0 || p == [] || p[0] == 0 then [] else [p[0]] + UntilNul(p[1..], n - 1)
  }

  /** The string kafka_consume stores for an accepted message
      (kafka.c:474-483): the payload up to its first NUL, bounded by the
      length cast to int, and the empty string when that cast is not positive. */
  function PayloadValue(p: seq<byte>): (r: seq<byte>)
    ensures r <= p && 0 !in r
    ensures 0 < |p| <= INT32_MAX ==> |r| == |p| || p[|r|] == 0
    ensures |p| == 0 ==> r == []
  {
    var n := ToInt32(|p|);
    if n > 0 then UntilNul(p, n) else []
  }

  /** A payload without NUL bytes comes back whole; the empty payload comes
      back as the empty string. */
  lemma PayloadRoundTrip(p: seq<byte>)
    requires 0 !in p && |p| <= INT32_MAX
    ensures PayloadValue(p) == p
  {
  }

  /** A payload with a NUL byte comes back cut short at that byte. */
  lemma PayloadCutAtNul()
    ensures PayloadValue([65, 0, 66]) == [65]
  {
    var p: seq<byte> := [65, 0, 66];
    assert ToInt32(3) == 3;
    assert UntilNul(p[1..], 2) == [];
  }

  /** What the array holds after one more pull: a timeout or a rejected message
      leaves it alone, an accepted one is stored at its offset cast to int. */
  function Put(acc: map<int, seq<byte>>, pull: Option<Message>, logLevel: int): (r: map<int, seq<byte>>)
    ensures forall k :: k in acc ==> k in r
    ensures forall k :: k in r && !StoresAt(pull, k, logLevel) ==> k in acc && r[k] == acc[k]
    ensures forall k :: StoresAt(pull, k, logLevel) ==> k in r && r[k] == PayloadValue(pull.value.payload)
  {
    match pull
    case None => acc
    case Some(m) => if Accepts(m, logLevel) then acc[ToInt32(m.offset) := PayloadValue(m.payload)] else acc
  }

  /** The array kafka_consume fills from a sequence of pulls. */
  function Collect(pulls: seq<Option<Message>>, logLevel: int): (r: map<int, seq<byte>>)
    ensures forall k :: k in r ==> 0 !in r[k]
  {
    if pulls == [] then map[] else Put(Collect(pulls[..|pulls| - 1], logLevel), pulls[|pulls| - 1], logLevel)
  }

  /** A pull that stores something at `key`. */
  predicate StoresAt(pull: Option<Message>, key: int, logLevel: int)
  {
    pull.Some? && Accepts(pull.value, logLevel) && ToInt32(pull.value.offset) == key
  }

  /** One more pull: timeouts and rejected messages add nothing, and an
      accepted message overwrites whatever its key held. */
  lemma CollectAppend(pulls: seq<Option<Message>>, pull: Option<Message>, logLevel: int)
    ensures pull.None? ==> Collect(pulls + [pull], logLevel) == Collect(pulls, logLevel)
    ensures pull.Some? && !Accepts(pull.value, logLevel) ==>
      Collect(pulls + [pull], logLevel) == Collect(pulls, logLevel)
    ensures pull.Some? && Accepts(pull.value, logLevel) ==>
      Collect(pulls + [pull], logLevel) ==
        Collect(pulls, logLevel)[ToInt32(pull.value.offset) := PayloadValue(pull.value.payload)]
  {
  }

  /** The array after pull `k` is the array before it with that pull put in. */
  lemma CollectStep(pulls: seq<Option<Message>>, k: int, logLevel: int)
    requires 0 <= k < |pulls|
    ensures Collect(pulls[..k + 1], logLevel) == Put(Collect(pulls[..k], logLevel), pulls[k], logLevel)
  {
    assert pulls[..k + 1][..k] == pulls[..k];
  }

  /** The keys are exactly the offsets of the accepted messages. */
  lemma {:induction false} CollectKeys(pulls: seq<Option<Message>>, logLevel: int, key: int)
    ensures key in Collect(pulls, logLevel) <==> exists i :: 0 <= i < |pulls| && StoresAt(pulls[i], key, logLevel)
  {
    if pulls != [] {
      var front := pulls[..|pulls| - 1];
      CollectKeys(front, logLevel, key);
      if exists i :: 0 <= i < |front| && StoresAt(front[i], key, logLevel) {
        var i :| 0 <= i < |front| && StoresAt(front[i], key, logLevel);
        assert StoresAt(pulls[i], key, logLevel);
      }
      if exists i :: 0 <= i < |pulls| && StoresAt(pulls[i], key, logLevel) {
        var i :| 0 <= i < |pulls| && StoresAt(pulls[i], key, logLevel);
        if i < |front| {
          assert StoresAt(front[i], key, logLevel);
        }
      }
    }
  }

  /** The value at a key is the string of the last message stored there. */
  lemma {:induction false} CollectLastWins(pulls: seq<Option<Message>>, logLevel: int, i: int)
    requires 0 <= i < |pulls| && pulls[i].Some? && Accepts(pulls[i].value, logLevel)
    requires forall j :: i < j < |pulls| ==> !StoresAt(pulls[j], ToInt32(pulls[i].value.offset), logLevel)
    ensures ToInt32(pulls[i].value.offset) in Collect(pulls, logLevel)
    ensures Collect(pulls, logLevel)[ToInt32(pulls[i].value.offset)] == PayloadValue(pulls[i].value.payload)
  {
    if i < |pulls| - 1 {
      var front := pulls[..|pulls| - 1];
      CollectLastWins(front, logLevel, i);
    }
  }

  /** Each pull adds at most one entry. */
  lemma {:induction false} CollectSize(pulls: seq<Option<Message>>, logLevel: int)
    ensures |Collect(pulls, logLevel)| <= |pulls|
  {
    if pulls != [] {
      CollectSize(pulls[..|pulls| - 1], logLevel);
    }
  }

  /** A pull after which the loop stops: an end-of-partition with exit_eof. */
  predicate IsStop(pull: Option<Message>, exitEof: bool)
  {
    pull.Some? && Halts(pull.value, exitEof)
  }

  /** The position of the first stopping pull, or the length when there is none. */
  function FirstStop(pulls: seq<Option<Message>>, exitEof: bool): (e: nat)
    ensures e <= |pulls|
    ensures e < |pulls| ==> IsStop(pulls[e], exitEof)
    ensures forall j :: 0 <= j < e ==> !IsStop(pulls[j], exitEof)
  {
    if pulls == [] then 0
    else if IsStop(pulls[0], exitEof) then 0
    else 1 + FirstStop(pulls[1..], exitEof)
  }

  /** The transport's answers reach the end of the loop: the count runs out
      within them, or one of them stops the loop. */
  predicate PullsSuffice(pulls: seq<Option<Message>>, itemCount: int, exitEof: bool)
  {
    (itemCount > 0 && itemCount <= |pulls|) || FirstStop(pulls, exitEof) < |pulls|
  }

  /** How many pulls kafka_consume makes while the flag stays set
      (kafka.c:445-460): a positive `item_count` allows that many, a zero or
      negative one sets no bound, and a stopping pull ends the loop early. */
  function PullCount(pulls: seq<Option<Message>>, itemCount: int, exitEof: bool): (n: nat)
    requires PullsSuffice(pulls, itemCount, exitEof)
    ensures 1 <= n <= |pulls|
    ensures itemCount > 0 ==> n <= itemCount
    ensures forall j :: 0 <= j < n - 1 ==> !IsStop(pulls[j], exitEof)
    ensures n == itemCount || IsStop(pulls[n - 1], exitEof)
  {
    var e := FirstStop(pulls, exitEof);
    if itemCount > 0 && itemCount <= e then itemCount else e + 1
  }

  /** A bounded consume returns at most `item_count` entries. */
  lemma ConsumeBounded(pulls: seq<Option<Message>>, itemCount: int, exitEof: bool, logLevel: int)
    requires itemCount > 0 && PullsSuffice(pulls, itemCount, exitEof)
    ensures |Collect(pulls[..PullCount(pulls, itemCount, exitEof)], logLevel)| <= itemCount
  {
    CollectSize(pulls[..PullCount(pulls, itemCount, exitEof)], logLevel);
  }

  /** A partition that answers end-of-partition at once, with exit_eof set,
      yields one pull and nothing stored. */
  lemma ImmediateEofYieldsNothing(pulls: seq<Option<Message>>, itemCount: int, logLevel: int)
    requires pulls != [] && IsStop(pulls[0], true)
    ensures PullsSuffice(pulls, itemCount, true)
    ensures PullCount(pulls, itemCount, true) == 1
    ensures Collect(pulls[..1], logLevel) == map[]
  {
  }

  /** The value kafka_partition_offsets records for partition `i`
      (kafka.c:371-389): -1 unless consume_start succeeded and a message came
      back, and then the message's offset cast to int when msg_consume
      accepted it, or when it reports partition `i` and is not an
      end-of-partition. */
  function ProbeOffset(i: int, probe: Probe, logLevel: int): (v: int)
    ensures IsInt32(v)
    ensures v != -1 ==> probe.started && probe.first.Some? && v == ToInt32(probe.first.value.offset)
    ensures v != -1 ==> Accepts(probe.first.value, logLevel) ||
                        (probe.first.value.partition == i && !IsEof(probe.first.value))
  {
    if !probe.started then -1
    else match probe.first
      case None => -1
      case Some(m) =>
        if Accepts(m, logLevel) then ToInt32(m.offset)
        else if m.partition == i && !IsEof(m) then ToInt32(m.offset)
        else -1
  }

  /** When the recorded value is the message's offset: the converse of
      ProbeOffset's guarantee. */
  lemma ProbeOffsetRecorded(i: int, probe: Probe, logLevel: int)
    requires probe.started && probe.first.Some?
    requires Accepts(probe.first.value, logLevel) ||
             (probe.first.value.partition == i && !IsEof(probe.first.value))
    ensures ProbeOffset(i, probe, logLevel) == ToInt32(probe.first.value.offset)
  {
  }

  /** Whether some probe's message clears the running flag. */
  predicate AnyStop(probes: seq<Probe>, exitEof: bool)
  {
    exists i :: 0 <= i < |probes| && probes[i].started && IsStop(probes[i].first, exitEof)
  }
}
