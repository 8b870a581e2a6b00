/** Application messages and wills (libs/service/src/message.rs). Time is in nanoseconds. */
module Messages {
  import opened Types

  const SECOND: nat := 1_000_000_000

  datatype Message = Message(
    fromClientId: Option<Text>,
    fromUid: Option<Text>,
    createdAt: nat,
    topic: Text,
    qos: Qos,
    payload: Text,
    retain: bool,
    properties: PublishProperties)
  {
    function ExpiredAt(): (at: Option<nat>) {
      match properties.messageExpiryInterval
      case None => None
      case Some(interval) => Some(createdAt + interval * SECOND)
    }

    predicate IsExpired(now: nat) {
      ExpiredAt().Some? && ExpiredAt().value <= now
    }

    /** The packet that carries this message, its expiry interval counted down to `now`;
        None once the message has expired. */
    function ToPublish(now: nat): Option<Publish> {
      var publish := Publish(false, qos, retain, topic, None, properties, payload);
      match ExpiredAt()
      case None => Some(publish)
      case Some(at) =>
        if at < now then None
        else
          var left := (at - now) / SECOND % 0x1_0000_0000;
          Some(publish.(properties := properties.(messageExpiryInterval := Some(left))))
    }
  }

  /** A will and its properties. */
  datatype LastWill = LastWill(
    topic: Text,
    payload: Text,
    qos: Qos,
    retain: bool,
    delayInterval: Option<u32>,
    properties: PublishProperties)

  function FromLastWill(will: LastWill, now: nat): Message {
    Message(None, None, now, will.topic, will.qos, will.payload, will.retain,
            will.properties.(topicAlias := None, subscriptionIdentifiers := []))
  }

  function FromPublish(publish: Publish, clientId: Text, uid: Option<Text>, now: nat): Message {
    Message(Some(clientId), uid, now, publish.topic, publish.qos, publish.payload, publish.retain,
            publish.properties.(topicAlias := None, subscriptionIdentifiers := []))
  }
}
