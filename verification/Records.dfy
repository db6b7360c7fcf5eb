/** Consumed records and the filter stage's verdict on each (consume.rs, streaming.rs). */
module Records {
  import opened Wrappers

  type I64 = x: int | -0x8000_0000_0000_0000 <= x <= 0x7FFF_FFFF_FFFF_FFFF
  type I32 = x: int | -0x8000_0000 <= x <= 0x7FFF_FFFF
  type Byte = x: int | 0 <= x < 256

  type TopicPartition = (string, I32)

  datatype Record = Record(
    topic: string,
    partition: I32,
    offset: I64,
    value: seq<Byte>,
    json: Option<seq<Byte>>,
    schemaId: Option<I32>)
  {
    function Key(): TopicPartition { (topic, partition) }
  }

  /** `FilteredRecordDecision`. */
  datatype Decision = Deliver(record: Record) | Filter(record: Record)
}
