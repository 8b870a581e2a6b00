/** The values every part of the broker passes around.
    A `str` or `Bytes` of the source is its sequence of bytes, so lengths, slices and
    the order on strings are the source's own. */
module Types {
  type byte = x: int | 0 <= x < 0x100
  type u16 = x: int | 0 <= x < 0x1_0000
  type u32 = x: int | 0 <= x < 0x1_0000_0000
  type NonZeroU16 = x: int | 0 < x < 0x1_0000 witness 1
  type NonZeroUsize = x: int | 0 < x < 0x1_0000_0000_0000_0000 witness 1
  type Text = seq<byte>

  const USIZE_MAX: nat := 0xFFFF_FFFF_FFFF_FFFF

  datatype Option<+T> = None | Some(value: T)

  datatype Result<+T, +E> = Ok(value: T) | Err(error: E) {
    predicate IsFailure() {
      Err?
    }

    function PropagateFailure<U>(): Result<U, E>
      requires Err?
    {
      Err(error)
    }

    function Extract(): T
      requires Ok?
    {
      value
    }
  }

  datatype ProtocolLevel = V4 | V5

  datatype Qos = AtMostOnce | AtLeastOnce | ExactlyOnce {
    function ToNat(): nat {
      match this
      case AtMostOnce => 0
      case AtLeastOnce => 1
      case ExactlyOnce => 2
    }

    function Max(other: Qos): Qos {
      if ToNat() < other.ToNat() then other else this
    }

    function Min(other: Qos): Qos {
      if other.ToNat() < ToNat() then other else this
    }
  }

  function ToQos(n: nat): Option<Qos> {
    if n == 0 then Some(AtMostOnce) else if n == 1 then Some(AtLeastOnce) else if n == 2 then Some(ExactlyOnce)
    else None
  }

  datatype RetainHandling = OnEverySubscribe | OnNewSubscribe | Never

  datatype FilterItem = FilterItem(
    qos: Qos,
    noLocal: bool,
    retainAsPublished: bool,
    retainHandling: RetainHandling,
    id: Option<NonZeroUsize>)

  datatype PublishProperties = PublishProperties(
    payloadFormatIndicator: Option<bool>,
    messageExpiryInterval: Option<u32>,
    topicAlias: Option<NonZeroU16>,
    responseTopic: Option<Text>,
    correlationData: Option<Text>,
    userProperties: seq<(Text, Text)>,
    subscriptionIdentifiers: seq<NonZeroUsize>,
    contentType: Option<Text>)

  const NO_PROPERTIES: PublishProperties := PublishProperties(None, None, None, None, None, [], [], None)

  datatype Publish = Publish(
    dup: bool,
    qos: Qos,
    retain: bool,
    topic: Text,
    packetId: Option<NonZeroU16>,
    properties: PublishProperties,
    payload: Text)
}
