/** KafkaConsumer: the two listeners with manual acknowledgement, and the
    in-memory log of user events it has parsed. */
module Kafka {
  import opened Wrappers
  import opened Dto

  /** The topic user events are published to and consumed from. */
  const USER_EVENTS_TOPIC: string := "user-events"

  /** The log after one user event arrives: a payload that parses is appended,
      whether or not processing it then succeeds; one that does not parse is dropped. */
  function LogAfter(log: seq<KafkaMessage>, payload: string): (r: seq<KafkaMessage>)
    ensures |r| == |log| + (if DecodeMessage(payload).Some? then 1 else 0)
    ensures forall i :: 0 <= i < |log| ==> r[i] == log[i]
    ensures DecodeMessage(payload).Some? ==> r[|log|] == DecodeMessage(payload).value
  {
    match DecodeMessage(payload)
    case None => log
    case Some(m) => log + [m]
  }

  /** The log after a run of user events, delivered in this order. */
  function Replay(log: seq<KafkaMessage>, payloads: seq<string>): seq<KafkaMessage>
    decreases |payloads|
  {
    if payloads == [] then log else Replay(LogAfter(log, payloads[0]), payloads[1..])
  }

  /** The messages among the payloads that parse, in arrival order: what each
      payload alone would put in an empty log, one after another. */
  function Parsed(payloads: seq<string>): seq<KafkaMessage>
  {
    if payloads == [] then [] else LogAfter([], payloads[0]) + Parsed(payloads[1..])
  }

  /** How many of the payloads parse. */
  function ParsedCount(payloads: seq<string>): nat
  {
    if payloads == [] then 0
    else (if DecodeMessage(payloads[0]).Some? then 1 else 0) + ParsedCount(payloads[1..])
  }

  /** One delivery appends to any log what it would put in an empty one. */
  lemma LogAfterAppends(log: seq<KafkaMessage>, payload: string)
    ensures LogAfter(log, payload) == log + LogAfter([], payload)
  {
  }

  /** The log is append-only and in arrival order: a run of deliveries appends
      exactly the messages that parse, duplicates included. */
  lemma {:induction false} ReplayAppendsParsed(log: seq<KafkaMessage>, payloads: seq<string>)
    ensures Replay(log, payloads) == log + Parsed(payloads)
    decreases |payloads|
  {
    if payloads != [] {
      var first := LogAfter([], payloads[0]);
      var rest := Parsed(payloads[1..]);
      ReplayAppendsParsed(LogAfter(log, payloads[0]), payloads[1..]);
      LogAfterAppends(log, payloads[0]);
      assert log + first + rest == log + (first + rest);
    }
  }

  /** After a clear, the log holds one entry per delivered user event that parsed. */
  lemma {:induction false} ReplayLength(payloads: seq<string>)
    ensures |Replay([], payloads)| == ParsedCount(payloads)
  {
    ReplayAppendsParsed([], payloads);
    ParsedLength(payloads);
  }

  lemma {:induction false} ParsedLength(payloads: seq<string>)
    ensures |Parsed(payloads)| == ParsedCount(payloads)
  {
    if payloads != [] {
      ParsedLength(payloads[1..]);
    }
  }

  /** A message the producer sent is logged as itself when consumed, and a
      redelivery logs it a second time. */
  lemma SentMessageIsLogged(log: seq<KafkaMessage>, m: KafkaMessage)
    ensures LogAfter(log, EncodeMessage(m)) == log + [m]
    ensures LogAfter(LogAfter(log, EncodeMessage(m)), EncodeMessage(m)) == log + [m, m]
  {
    MessageRoundTrip(m);
  }

  class KafkaConsumer {
    var processedMessages: seq<KafkaMessage>

    constructor ()
      ensures processedMessages == []
    {
      processedMessages := [];
    }

    /** Listener on the user-events topic: parse, append to the log, process,
        then acknowledge. Any exception on the way is logged and swallowed, so
        a payload that does not parse is neither logged nor acknowledged, and a
        processing failure leaves the message logged but unacknowledged. */
    method ConsumeUserEvent(message: string, topic: string, partition: int, offset: int, processingFails: bool)
      returns (acknowledged: bool)
      modifies this
      ensures processedMessages == LogAfter(old(processedMessages), message)
      ensures acknowledged <==> DecodeMessage(message).Some? && !processingFails
    {
      var kafkaMessage := DecodeMessage(message);
      if kafkaMessage.None? {
        return false;
      }
      processedMessages := processedMessages + [kafkaMessage.value];
      if processingFails {
        return false;
      }
      acknowledged := true;
    }

    /** Listener on the notifications topic: process the raw text, then
        acknowledge; the log is never touched. */
    method ConsumeNotification(message: string, topic: string, partition: int, offset: int, processingFails: bool)
      returns (acknowledged: bool)
      ensures acknowledged <==> !processingFails
    {
      if processingFails {
        return false;
      }
      acknowledged := true;
    }

    /** A copy of the log: later deliveries do not change what was returned. */
    method GetProcessedMessages() returns (r: seq<KafkaMessage>)
      ensures r == processedMessages
    {
      r := processedMessages;
    }

    method ClearProcessedMessages()
      modifies this
      ensures processedMessages == []
    {
      processedMessages := [];
    }
  }
}
