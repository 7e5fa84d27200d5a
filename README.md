# phpkafka client core, modelled in Dafny

This project models `kafka.c`, the C layer of the phpkafka extension that sits
between PHP and librdkafka. That layer keeps its state in process-wide globals:
- the running flag `run`;
- the handle slot `rk` and the role variable `rk_type`;
- `log_level`, `exit_eof`, the broker list, `start_offset` and `partition`.

Its operations change that state one step at a time, so the model is
imperative. The globals are the fields of the class `Kafka.Client`. Each C
operation is a method of that class, with `modifies` frames naming exactly the
fields it may write. Two ghost logs record the external effects:
- `destroyed`: every handle passed to `rd_kafka_destroy`;
- `requests`: every produce and consume-start request issued.

librdkafka is never called. Each of its answers is an argument of the method
that asks for it:
- handle creation: `Creation`, which says whether `rd_kafka_new` returned a
  handle and how many brokers `rd_kafka_brokers_add` accepted;
- a metadata answer: `Option`;
- the successive results of `rd_kafka_consume`: a sequence in which `None`
  means a timeout;
- the successive values of `rd_kafka_outq_len`: a sequence;
- a per-partition `Probe` for `kafka_partition_offsets`.

The `exit(1)` paths become the `Exited` outcome.

Modules:
- `Base` (base.dfy): C integer widths and the `(int)` cast, bytes, `Option`,
  and `Assoc`, which describes how a PHP array fills under keyed insertion.
- `Rdkafka` (rdkafka.dfy): librdkafka's enumerators and sentinels, the
  message, and the partition probe.
- `OffsetToken` (offset_token.dfy): how the offset argument of `kafka_consume`
  becomes `start_offset`. This includes a model of `strtoll(s, NULL, 10)`:
  white space, an optional sign, as many digits as there are, and saturation
  at the 64-bit bounds.
- `MessageFlow` (message_flow.dfy): `msg_consume`'s verdict, the string stored
  for a message, the offset-keyed result array, the number of pulls the
  consume loop makes, and the value recorded for a probed partition.
- `Kafka` (client.dfy): the `Handle` and `Client` classes and their methods.

Three behaviours of the code, reproduced as written:
- `rk_type` is compared but never assigned. It therefore stays 0, which is
  `RD_KAFKA_PRODUCER`. A consumer-role call always destroys the current
  handle and creates a new one. A producer-role call reuses whatever handle
  it finds, even one created as a consumer.
- `kafka_produce` declares a local `partition` that shadows the global one,
  so every message goes to `RD_KAFKA_PARTITION_UA`.
- In `msg_consume`, the `return NULL` for an ordinary error sits inside the
  logging branch. With logging off, an errored message is therefore accepted
  and stored.

Four more behaviours a caller might not expect, also reproduced as written:
- Roles are not kept apart. A consumer handle serves a later producer.
  `Kafka.ConsumerHandleServesProducer` walks through this case.
- End-of-partition with `exit_eof` clears the process-wide `run`, not a flag
  local to the call. Since nothing sets `run` again, every later
  `kafka_consume` makes no pulls and returns an empty array.
- A negative `item_count` is not a bound. The counter only counts down while
  it is non-negative.
- A consumed payload is not returned byte for byte. It is cut at its first NUL
  byte (`MessageFlow.PayloadCutAtNul`).

## Model

| member | source | states |
|---|---|---|
| Kafka.Client.constructor | kafka.c:32-39 | The globals start as the C file initialises them: `run` and `exit_eof` set, `log_level` 1, `rk` NULL, `rk_type` 0 (RD_KAFKA_PRODUCER), brokers "localhost:9092", `start_offset` 0, `partition` RD_KAFKA_PARTITION_UA. |
| Kafka.Client.Connect | kafka.c:41-44 | `kafka_connect` (through `kafka_setup`) changes only the broker list, which later handles are created with. |
| Kafka.Client.SetLogLevel | kafka.c:46-49 | Only `log_level` changes. |
| Kafka.Client.IsConnected | kafka.c:52-57 | Returns 1 if and only if the slot holds a handle, and 0 if and only if it is NULL. |
| Kafka.Client.Stop | kafka.c:71-77 | `run` is cleared, the slot is emptied, and the handle it held, if any, is destroyed once. |
| Kafka.Client.SetPartition | kafka.c:123-126 | Only the global `partition` changes. |
| Kafka.Client.Destroy | kafka.c:133-147 | NULL or the slot's own handle: the slot ends NULL and its old handle, if any, is appended once to the destroy log, which stays free of repeats. Any other handle: it is destroyed and the slot is unchanged. |
| Kafka.Client.ConsumerHandle | kafka.c:417-421 | The shared `if (r == NULL)` step of the consumer-side calls: a given handle is used as is and nothing is destroyed. With none given, the slot's handle is destroyed and the call goes on with a fresh consumer handle in the slot, exactly when creation succeeds. |
| Kafka.Client.Init | kafka.c:149-184 | A role other than `rk_type` destroys the slot's handle first. An existing handle of the same role is reused untouched. An empty slot gets a fresh handle of the requested role, carrying the current broker list. The call returns exactly when creation succeeds and at least one broker is accepted, and then the slot is non-NULL. `rk_type` is never written: it is in no frame, and `Valid` keeps it RD_KAFKA_PRODUCER. |
| Kafka.Client.Produce | kafka.c:186-237 | No handle is destroyed. A handle already in the slot is reused. The one request issued is a produce of the payload to RD_KAFKA_PARTITION_UA, whatever the global partition is. The poll count is 1, plus 1 after a refused submission, plus the number of queue checks that still find messages before the first empty one; the wait adds none when `run` is cleared. |
| Kafka.QueuedChecks | kafka.c:233-234 | The wait loop ends at the first out-queue check that reads 0, and every earlier check read a positive length. |
| Kafka.Client.MsgConsume | kafka.c:239-270 | The verdict is `Accepts(m, log_level)`. `run` is cleared exactly by an end-of-partition message when `exit_eof` is set, and is never set. |
| MessageFlow.Accepts | kafka.c:242-269 | The message `msg_consume` hands back: an accepted message is never an end-of-partition, and with logging on it carries no error. |
| MessageFlow.Halts | kafka.c:252-253 | The message that clears `run`: an end-of-partition with `exit_eof` set, which is never handed back at any log level. |
| MessageFlow.AcceptsExactly | kafka.c:242-269 | A message is accepted if and only if it has no error, or it has a non-EOF error while logging is off. An EOF that stops the loop is never accepted. An error with logging on is never accepted. |
| Kafka.Client.GetTopics | kafka.c:273-294 | With no handle given, the slot's handle is destroyed and, when the call returns, a fresh consumer handle sits in the slot. On metadata success the result is the topic-to-count array, a later duplicate name overwriting an earlier one. On failure the result is empty. |
| Base.Assoc | kafka.c:283-289 | Every entry of the topic array is some pair of the metadata answer: its name and its count. |
| Base.AssocLastWins | kafka.c:283-289 | In an array filled by keyed insertion, a name holds the value of the last pair that names it. |
| Base.AssocKeys | kafka.c:283-289 | A key is present if and only if some pair names it. |
| Kafka.Client.PartitionCount | kafka.c:296-323 | With no handle given, the slot's handle is destroyed and, when the call returns, a fresh consumer handle sits in the slot. The count is the topic's `partition_cnt` on metadata success and 0 otherwise. |
| Kafka.Client.GetPartitions | kafka.c:326-332 | The result is exactly 0, 1, …, count-1 in order, and empty when the count is not positive. With no handle given and a returning call, a fresh consumer handle sits in the slot. |
| Kafka.Client.PartitionOffsets | kafka.c:341-398 | With no handle given and a returning call, a fresh consumer handle sits in the slot. On metadata failure: returns 0, leaves the array pointer as given, and leaves `run` and the request log alone. On reallocation failure: returns -1 with a NULL array. Otherwise: returns `partition_cnt` with a fresh array of that many entries, entry `i` being `ProbeOffset(i, probe i)`; every partition is asked to start from the beginning; `run` is cleared exactly when some started probe met a stopping end-of-partition. |
| Kafka.Client.ProbeAll | kafka.c:369-392 | A fresh array of `max(partition_cnt, 0)` entries, entry `i` being `ProbeOffset(i, probe i)`. Every partition is asked to start from the beginning, in order. `run` is cleared exactly when some started probe met a stopping end-of-partition. |
| Kafka.Client.ProbePartition | kafka.c:371-391 | The entry for one partition is `ProbeOffset`. The probe's `msg_consume` clears `run` exactly when the probe started and its message is a stopping end-of-partition. |
| MessageFlow.ProbeOffset | kafka.c:369-392 | An entry is a 32-bit value. If it is not -1, then consume_start succeeded, a message arrived, the entry is that message's offset cast to int, and the message was either accepted by msg_consume or from partition `i` and not an end-of-partition. So an end-of-partition probe and a rejected message of another partition leave -1. |
| MessageFlow.ProbeOffsetRecorded | kafka.c:380-389 | Conversely, the entry is the offset whenever the probe started, a message arrived, and msg_consume accepted it or it is from partition `i` and not an end-of-partition. |
| Kafka.Client.Consume | kafka.c:400-492 | `start_offset` becomes `TranslateOffset` of the argument. With no handle given, the old handle is destroyed and a fresh consumer handle created. The call returns exactly when creation succeeds (if needed) and consume_start succeeds. It issues one consume-start request at the global partition and the new `start_offset`. On return `run` is cleared, and the array is `Collect` of the pulls the loop made (none when `run` was already clear). |
| Kafka.Client.PullLoop | kafka.c:445-487 | The loop ends only with `run` cleared. It makes exactly `PullCount` pulls, and the array it builds is `Collect` of those pulls. |
| MessageFlow.PullCount | kafka.c:445-460 | At least one pull and no more than the script holds. With `item_count > 0`, at most `item_count` pulls. The loop stops after the count expires or at the first end-of-partition with `exit_eof`, and no earlier pull was such a stop. |
| MessageFlow.FirstStop | kafka.c:252-253 | The first pull that clears `run`, or the script length when none does; no earlier pull clears it. |
| MessageFlow.ConsumeBounded | kafka.c:445-460 | A consume with `item_count > 0` returns at most `item_count` entries. |
| MessageFlow.ImmediateEofYieldsNothing | kafka.c:243-254 | A partition that answers end-of-partition at once, with `exit_eof`, gives one pull and an empty array, whatever the count. |
| Kafka.Client.Take | kafka.c:467-486 | One pull: the array becomes `Put` of it. `run` is cleared exactly by a stopping end-of-partition. |
| MessageFlow.Put | kafka.c:473-483 | Storing one pull keeps every existing key. Only the key an accepted message stores at can change, and it then holds that message's string. A timeout or a rejected message changes nothing. |
| MessageFlow.Collect | kafka.c:467-484 | Every string in the array is NUL-free, as a C string copied with `%.*s` must be. |
| MessageFlow.CollectAppend | kafka.c:467-484 | A timeout or a rejected message adds nothing. An accepted message is stored at its offset cast to int, overwriting what that key held. |
| MessageFlow.CollectKeys | kafka.c:473-478 | A key is in the array if and only if some accepted message's offset casts to it. |
| MessageFlow.CollectLastWins | kafka.c:473-483 | A key holds the string of the last accepted message stored there. |
| MessageFlow.CollectSize | kafka.c:473-484 | The array has no more entries than there were pulls. |
| MessageFlow.PayloadValue | kafka.c:474-483 | The stored string is a prefix of the payload without NUL bytes. It stops only at the payload's end or at a NUL (for lengths that fit in an int). An empty payload gives the empty string. |
| MessageFlow.UntilNul | kafka.c:477 | `%.*s` copies a NUL-free prefix of at most `n` bytes, stopping only at the end, at `n` bytes, or at a NUL. |
| MessageFlow.PayloadRoundTrip | kafka.c:474-483 | A NUL-free payload shorter than 2^31 bytes comes back whole, including the empty payload. |
| MessageFlow.PayloadCutAtNul | kafka.c:476-478 | The payload bytes 65, 0, 66 come back as the single byte 65. |
| Base.ToInt32 | kafka.c:478 | The `(int)` cast gives a 32-bit value congruent to its argument modulo 2^32, equal to it when it already fits. |
| OffsetToken.TranslateOffset | kafka.c:405-414 | The translation is total and keeps `start_offset` a 64-bit value. |
| OffsetToken.TranslateKeywords | kafka.c:405-411 | For the token "", the previous offset is kept. For the tokens "end", "beginning" and "stored", the result is RD_KAFKA_OFFSET_END, _BEGINNING and _STORED. |
| OffsetToken.TranslateNumeral | kafka.c:412-413 | Any 64-bit value written in decimal, followed by any non-digit text, translates to that value. |
| OffsetToken.TranslateNumberToken | kafka.c:405-413 | A NUL-free token that starts with a minus sign or a digit is no keyword and goes to strtoll whole. |
| OffsetToken.TranslateDigits | kafka.c:412-413 | A token of digits followed by text that does not start with a digit translates to the digits' value, saturated. |
| OffsetToken.TranslateExamples | kafka.c:412-413 | For the token "17", and for the token "17ab", the result is 17. |
| OffsetToken.TranslateWithoutDigits | kafka.c:412-413 | For the token "xyz", the result is 0. |
| OffsetToken.Strtoll | kafka.c:413 | The parse always yields a 64-bit value. |
| OffsetToken.StrtollOfNumeral | kafka.c:413 | A signed decimal numeral reads as its value, saturated to LLONG_MIN or LLONG_MAX. |
| OffsetToken.StrtollOfDigits | kafka.c:413 | Digits followed by a non-digit read as the digits' value, saturated. |
| OffsetToken.StrtollWithoutDigits | kafka.c:413 | Text that starts with neither white space, a sign nor a digit reads as 0. |
| OffsetToken.StrtollRoundTrip | kafka.c:413 | Writing a 64-bit value in decimal and reading it back with strtoll gives the value. |
| OffsetToken.CString | kafka.c:405 | C sees the longest NUL-free prefix of the argument. |

## Left out

- Logging (`openlog`/`syslog`) is left out: it is a diagnostic sink. `log_level` appears only where it changes `msg_consume`'s verdict.
- Signal installation in `kafka_produce` (kafka.c:189-190), the `fclose(stdin)` in `kafka_stop` and the asynchronous callbacks `kafka_msg_delivered` and `kafka_err_cb` (kafka.c:59-87) are left out. These are OS signals and transport threads, and the callbacks are registered on the configuration after the handle is created, so whether they ever fire is decided inside librdkafka. Only `kafka_stop`'s effect on the state is modelled (`Kafka.Client.Stop`). Nothing clears `run` during the produce wait.
- `kafka_set_connection` (kafka.c:89-121) is left out: it creates a handle without touching any global. Callers may pass such handles to every method as `r`.
- librdkafka itself is left out, because it is foreign code: `rd_kafka_new`, `brokers_add`, `metadata`, `consume_start`, `consume`, `poll`, `outq_len`, topic handles, message release, and the blocking `rd_kafka_wait_destroyed`, whose `timeout` is accepted and ignored. Their results are arguments.
- Kafka.Client.Produce: assumes that, while `run` is set, some out-queue check eventually reads 0. The C loop would otherwise never end, and a terminating model cannot express that.
- Kafka.Client.PullLoop: assumes that, while `run` is set, the supplied pulls reach a stop, either through the count or an end-of-partition with `exit_eof`. An unbounded consume that never meets one runs forever in C.
- Kafka.Client.Destroy: requires that a handle other than the slot's has not been destroyed before. Destroying it again would be a use-after-free in C, so the model does not describe that call.
- Kafka.Client.Stop: passing NULL to `rd_kafka_destroy` when the slot is already empty is a memory-safety defect. The model records no destroy in that case.
- Kafka.Client.PartitionOffsets: `realloc` is modelled as handing back a fresh array of `max(partition_cnt, 0)` entries. Whether it moved the block, and the old contents it copies (all overwritten), are not modelled. Neither is the call to `rd_kafka_metadata_destroy(NULL)` on the failure path.
- The one-byte overflow of `sprintf` into `char payload[len]` (kafka.c:476-477) is left out. Only the resulting string is modelled.
- PHP value marshalling (`add_assoc_long`, `add_index_string`, `add_next_index_long`) is represented as Dafny maps and sequences. PHP's conversion of numeric string keys to integer keys is not modelled.
