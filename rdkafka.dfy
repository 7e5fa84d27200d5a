/** The parts of librdkafka's interface that the client's own logic depends on:
    its enumerators and sentinels, and the shapes of the answers it gives. */
module Rdkafka {
  import opened Base

  /** rd_kafka_type_t: RD_KAFKA_PRODUCER is the first enumerator, so it is the
      value of a zero-initialised variable of that type. */
  const Producer: int := 0
  const Consumer: int := 1

  type HandleType = t: int | t == Producer || t == Consumer witness Producer

  /** RD_KAFKA_PARTITION_UA: let the partitioner choose. */
  const PartitionUnassigned: int := -1

  /** RD_KAFKA_OFFSET_BEGINNING, RD_KAFKA_OFFSET_END, RD_KAFKA_OFFSET_STORED. */
  const OffsetBeginning: int := -2
  const OffsetEnd: int := -1
  const OffsetStored: int := -1000

  /** RD_KAFKA_RESP_ERR_NO_ERROR and RD_KAFKA_RESP_ERR__PARTITION_EOF. */
  const ErrNoError: int := 0
  const ErrPartitionEof: int := -191

  /** An rd_kafka_message_t as the consumer receives it; its `len` is the
      length of `payload`. */
  datatype Message = Message(err: int, partition: int, offset: int, payload: seq<byte>)

  /** What probing one partition in kafka_partition_offsets yields: whether
      rd_kafka_consume_start succeeded, and what the one rd_kafka_consume call
      returned (None for a timeout). */
  datatype Probe = Probe(started: bool, first: Option<Message>)
}
