/** Identifiers.  Peer ids, topics and message ids are only ever compared, so
    numbered values stand for them; times and durations are integers in
    nanoseconds. */
module Ids {
  datatype Peer = PeerId(n: nat)
  datatype Topic = TopicId(n: nat)
  datatype MsgId = MessageId(n: nat)
  type Time = int
  type Duration = int

  const SECOND: Duration := 1_000_000_000
}
