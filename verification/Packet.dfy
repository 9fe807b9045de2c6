/** The size of a PUBLISH packet, measured in UTF-8 bytes (src/MQTTBridge/bridge.py, `_oversize`). */
module Packet {
  import opened PrimeField

  const MAX_PACKET_BYTES := 1000000

  const PACKET_OVERHEAD_BYTES := 1 + 4 + 2

  /** What goes on the wire: text, sent as UTF-8, or bytes. */
  datatype Body = Text(text: string) | Bytes(bytes: seq<nat>)

  function Utf8Width(c: char): (n: nat)
    ensures 1 <= n <= 4
  {
    if c as int < 0x80 then 1 else if c as int < 0x800 then 2 else if c as int < 0x10000 then 3 else 4
  }

  /** The least of the widths that hold the character: 7 bits in one byte, 5n + 1 in n (section 3 of RFC 3629). */
  lemma {:induction false} WidthIsLeast(c: char)
    ensures var n := Utf8Width(c);
      && c as int < Pow(2, if n == 1 then 7 else 5 * n + 1)
      && (n > 1 ==> c as int >= Pow(2, if n == 2 then 7 else 5 * (n - 1) + 1))
  {
    assert Pow(2, 7) == 0x80 && Pow(2, 11) == 0x800 && Pow(2, 16) == 0x10000 && Pow(2, 21) == 0x200000;
  }

  function Utf8Length(text: string): nat {
    if text == "" then 0 else Utf8Length(text[..|text| - 1]) + Utf8Width(text[|text| - 1])
  }

  lemma {:induction false} Utf8Bounds(text: string)
    ensures |text| <= Utf8Length(text) <= 4 * |text|
  {
    if text == "" {
    } else {
      Utf8Bounds(text[..|text| - 1]);
    }
  }

  lemma {:induction false} Utf8Adds(a: string, b: string)
    ensures Utf8Length(a + b) == Utf8Length(a) + Utf8Length(b)
  {
    if b == "" {
      assert a + b == a;
    } else {
      assert (a + b)[..|a + b| - 1] == a + b[..|b| - 1];
      Utf8Adds(a, b[..|b| - 1]);
    }
  }

  function BodyLength(body: Body): nat {
    match body
    case Text(text) => Utf8Length(text)
    case Bytes(bytes) => |bytes|
  }

  function PacketSize(topic: string, body: Body): nat {
    PACKET_OVERHEAD_BYTES + Utf8Length(topic) + BodyLength(body)
  }

  /**
   The bytes of the packet when that is over the bound, else 0. Text that
   fits at four bytes a letter is not measured.
   */
  function Oversize(topic: string, body: Body): nat {
    if body.Text? && PACKET_OVERHEAD_BYTES + (|topic| + |body.text|) * 4 <= MAX_PACKET_BYTES then 0
    else
      var size := PACKET_OVERHEAD_BYTES + Utf8Length(topic) + BodyLength(body);
      if size > MAX_PACKET_BYTES then size else 0
  }

  /** The short cut never changes the answer. */
  lemma {:induction false} OversizeIsExact(topic: string, body: Body)
    ensures Oversize(topic, body) == if PacketSize(topic, body) > MAX_PACKET_BYTES then PacketSize(topic, body) else 0
  {
    Utf8Bounds(topic);
    if body.Text? { Utf8Bounds(body.text); }
  }

  /** `exceeds`: whether a payload of at least `least` bytes is certainly over the bound. */
  predicate Exceeds(topic: string, least: nat) {
    PACKET_OVERHEAD_BYTES + Utf8Length(topic) + least > MAX_PACKET_BYTES
  }

  /** It says so of no payload that fits, and a payload's own length decides exactly. */
  lemma {:induction false} ExceedsIsCertain(topic: string, least: nat, body: Body)
    ensures least <= BodyLength(body) && Exceeds(topic, least) ==> Oversize(topic, body) > 0
    ensures Exceeds(topic, BodyLength(body)) <==> Oversize(topic, body) > 0
  {
    OversizeIsExact(topic, body);
  }
}
