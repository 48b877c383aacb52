/**
 * The light-state value model of the traffic-light server: the eight
 * channel combinations backed by a 3-bit mask, the validated decoding of a
 * raw integer (the first byte of a command datagram), and the fixture that
 * writes one mask to its red, amber and green channels.
 */
module TrafficLights {
  import Wrappers

  /** One byte of a received datagram. */
  newtype byte = b: int | 0 <= b < 0x100

  /** The channel combinations; the mask has red at bit 2, amber at bit 1 and green at bit 0. */
  datatype Lights = None | Green | Amber | AmberGreen | Red | RedGreen | RedAmber | All
  {
    /** The enum member's integer value. */
    function Value(): (v: nat)
      ensures v < 8
    {
      match this
      case None => 0x00
      case Green => 0x01
      case Amber => 0x02
      case AmberGreen => 0x03
      case Red => 0x04
      case RedGreen => 0x05
      case RedAmber => 0x06
      case All => 0x07
    }
  }

  /** The members in declaration order, which is the order in which the enum iterates. */
  const AllLights: seq<Lights> := [None, Green, Amber, AmberGreen, Red, RedGreen, RedAmber, All]

  /** Calling the enum on a raw integer: a member for each of the eight masks, nothing otherwise. */
  function FromValue(v: int): (r: Wrappers.Option<Lights>)
    ensures r.Some? <==> 0 <= v < 8
    ensures r.Some? ==> r.value.Value() == v
  {
    if 0 <= v < |AllLights| then Wrappers.Some(AllLights[v]) else Wrappers.None
  }

  /** The listener's range test on the first byte of a datagram: between NONE and ALL inclusive. */
  predicate Accepts(b: byte)
    ensures Accepts(b) <==> b as int <= 7
  {
    None.Value() <= b as int <= All.Value()
  }

  /** A first byte is accepted exactly when it is one of the eight masks, and then it decodes to the member with that value. */
  lemma AcceptsExactlyTheMasks(b: byte)
    ensures Accepts(b) <==> b as int <= 7
    ensures Accepts(b) <==> FromValue(b as int).Some?
    ensures Accepts(b) ==> FromValue(b as int).value.Value() == b as int
  {
  }

  /** Taking a member's value and decoding it gives the member back. */
  lemma ValueRoundTrip(l: Lights)
    ensures FromValue(l.Value()) == Wrappers.Some(l)
  {
  }

  /** Distinct members have distinct values. */
  lemma ValueInjective(l: Lights, l': Lights)
    ensures l.Value() == l'.Value() ==> l == l'
  {
    ValueRoundTrip(l);
    ValueRoundTrip(l');
  }

  /** The enumeration lists each member once, at the position of its value. */
  lemma AllLightsByValue(l: Lights)
    ensures |AllLights| == 8
    ensures AllLights[l.Value()] == l
  {
  }

  /** A draw from `range(len(Lights))`, as the random sequence makes, always names a member. */
  lemma RandomDrawDecodes(draw: int)
    requires 0 <= draw < |AllLights|
    ensures FromValue(draw).Some?
    ensures FromValue(draw).value == AllLights[draw]
  {
  }

  /** The on/off state of the three channels of the fixture. */
  datatype Channels = Channels(red: bool, amber: bool, green: bool)

  /**
   * The channels `TrafficLight.set` turns on: each is one bit of the mask,
   * so red is lit for the values 4..7, amber for those whose remainder
   * modulo 4 is 2 or 3, and green for the odd values.
   */
  function ChannelsOf(l: Lights): (c: Channels)
    ensures c.red <==> 4 <= l.Value()
    ensures c.amber <==> 2 <= l.Value() % 4
    ensures c.green <==> l.Value() % 2 == 1
  {
    var v := l.Value() as bv3;
    Channels(v & 0x4 != 0, v & 0x2 != 0, v & 0x1 != 0)
  }

  /** The mask a channel triple reads as, by place value. */
  function MaskOf(c: Channels): (v: nat)
    ensures v < 8
  {
    (if c.red then 4 else 0) + (if c.amber then 2 else 0) + (if c.green then 1 else 0)
  }

  /** The member that shows a given channel triple. */
  function FromChannels(c: Channels): Lights
  {
    FromValue(MaskOf(c)).value
  }

  /** Each channel is on exactly for the members whose name contains its colour (or ALL). */
  lemma ChannelsByName(l: Lights)
    ensures ChannelsOf(l).red <==> l in {Red, RedGreen, RedAmber, All}
    ensures ChannelsOf(l).amber <==> l in {Amber, AmberGreen, RedAmber, All}
    ensures ChannelsOf(l).green <==> l in {Green, AmberGreen, RedGreen, All}
  {
  }

  /** The bits extracted by `set` put together again give the member's value. */
  lemma ChannelsEncodeValue(l: Lights)
    ensures MaskOf(ChannelsOf(l)) == l.Value()
  {
  }

  /** The eight members map one-to-one onto the eight channel triples: each direction inverts the other. */
  lemma ChannelsBijection(l: Lights, c: Channels)
    ensures FromChannels(ChannelsOf(l)) == l
    ensures ChannelsOf(FromChannels(c)) == c
  {
    ChannelsEncodeValue(l);
    ValueRoundTrip(l);
  }

  /** Distinct members light distinct channel triples. */
  lemma ChannelsInjective(l: Lights, l': Lights)
    ensures ChannelsOf(l) == ChannelsOf(l') ==> l == l'
  {
    ChannelsBijection(l, ChannelsOf(l));
    ChannelsBijection(l', ChannelsOf(l'));
  }

  /**
   * The fixture: three LEDs written together. `trace` records every value
   * handed to `Set`, oldest first, standing for what the hardware was told.
   */
  class TrafficLight {
    var red: bool
    var amber: bool
    var green: bool
    var trace: seq<Lights>

    /** The channels currently lit. */
    function Shown(): Channels
      reads this
    {
      Channels(red, amber, green)
    }

    /** The LEDs start switched off and nothing has been written. */
    constructor ()
      ensures Shown() == ChannelsOf(None)
      ensures trace == []
    {
      red, amber, green := false, false, false;
      trace := [];
    }

    /** Writes the three channels from the bits of the mask. */
    method Set(l: Lights)
      modifies this
      ensures Shown() == ChannelsOf(l)
      ensures trace == old(trace) + [l]
    {
      var v := l.Value() as bv3;
      red := v & 0x4 != 0;
      amber := v & 0x2 != 0;
      green := v & 0x1 != 0;
      trace := trace + [l];
    }
  }
}
