/** A-MSDUs (section 8.3.2.2 of IEEE Std 802.11-2012) and what their subframes are worth
    as Ethernet frames (ieee80211_atbm_skb.c, iface.c). */
module AmsduFormat {
  import opened Octets

  /** Destination and source address. */
  type Address = a: Bytes | |a| == 6 witness [0, 0, 0, 0, 0, 0]

  const RFC1042: Bytes := [0xaa, 0xaa, 0x03, 0x00, 0x00, 0x00]
  const BRIDGE_TUNNEL: Bytes := [0xaa, 0xaa, 0x03, 0x00, 0x00, 0xf8]
  const ETH_P_AARP: nat := 0x80F3
  const ETH_P_IPX: nat := 0x8137
  const ETH_P_802_3_MIN: nat := 0x600
  const ETH_HLEN: nat := 14

  /** A 16-bit number, high byte first. */
  function Be16(n: nat): (b: Bytes)
    requires n < 0x10000
    ensures |b| == 2
  {
    [n / 256, n % 256]
  }

  function FromBe16(b: Bytes): (n: nat)
    requires |b| == 2
    ensures n < 0x10000 && Be16(n) == b
  {
    (b[0] as int) * 256 + b[1] as int
  }

  /** `(4 - subframe_len) & 3`, in unsigned arithmetic. */
  function Padding(subframeLen: nat): (p: nat)
    ensures p < 4 && (subframeLen + p) % 4 == 0
  {
    (4 - subframeLen % 4) % 4
  }

  /** One aggregated MSDU, and the octets that pad it. */
  datatype Msdu = Msdu(dst: Address, src: Address, payload: Bytes, pad: Bytes)

  predicate IsMsdu(m: Msdu) { |m.payload| < 0x10000 && |m.pad| == Padding(ETH_HLEN + |m.payload|) }

  predicate AreMsdus(ms: seq<Msdu>) { forall i :: 0 <= i < |ms| ==> IsMsdu(ms[i]) }

  function Subframe(m: Msdu): Bytes
    requires IsMsdu(m)
  {
    m.dst + m.src + Be16(|m.payload|) + m.payload
  }

  /** The aggregate: every subframe but the last is padded to a multiple of four. */
  function Aggregate(ms: seq<Msdu>, tail: Bytes): Bytes
    requires ms != [] && AreMsdus(ms)
  {
    if |ms| == 1 then Subframe(ms[0]) + tail
    else Subframe(ms[0]) + ms[0].pad + Aggregate(ms[1..], tail)
  }

  /** The payload starts with an LLC/SNAP header that stands for an EtherType. `head`
      are its first eight bytes, as far as it has them. */
  predicate IsEncapsulated(head: Bytes)
    requires |head| >= 8
  {
    var ethertype := FromBe16(head[6..8]);
    || (head[..6] == RFC1042 && ethertype != ETH_P_AARP && ethertype != ETH_P_IPX)
    || head[..6] == BRIDGE_TUNNEL
  }

  /** The Ethernet frame made of a subframe: `len` is its length field, `stale` the
      bytes that happen to lie behind a payload shorter than eight. */
  function Convert(dst: Address, src: Address, len: nat, payload: Bytes, stale: Bytes): Bytes
    requires len < 0x10000 && |stale| >= 8
  {
    if IsEncapsulated((payload + stale)[..8]) then
      dst + src + (if |payload| >= 6 then payload[6..] else payload)
    else dst + src + Be16(len) + payload
  }

  /** An Ethernet frame: addresses, then the EtherType or the length, then the rest. */
  datatype Ethernet = Ethernet(dst: Address, src: Address, proto: nat, body: Bytes)

  function EthernetBytes(f: Ethernet): Bytes
    requires f.proto < 0x10000
  {
    f.dst + f.src + Be16(f.proto) + f.body
  }

  /** What the sending side makes of a frame: an LLC/SNAP header for an EtherType. */
  function Encapsulate(f: Ethernet): Bytes
    requires f.proto < 0x10000
  {
    if f.proto == ETH_P_AARP || f.proto == ETH_P_IPX then BRIDGE_TUNNEL + Be16(f.proto) + f.body
    else if f.proto >= ETH_P_802_3_MIN then RFC1042 + Be16(f.proto) + f.body
    else f.body
  }

  /** Frames with an EtherType survive encapsulation and conversion; those with a length
      do if and only if the length is right and they do not look encapsulated. */
  lemma ConvertEncapsulated(f: Ethernet, stale: Bytes)
    requires f.proto < 0x10000 && |f.body| < 0xfff8 && |stale| >= 8
    ensures Convert(f.dst, f.src, |Encapsulate(f)|, Encapsulate(f), stale) == EthernetBytes(f)
            <==> f.proto >= ETH_P_802_3_MIN
                 || (f.proto == |f.body| && !IsEncapsulated((f.body + stale)[..8]))
  {
    var p := Encapsulate(f);
    if f.proto >= ETH_P_802_3_MIN {
      SnapHead(if f.proto == ETH_P_AARP || f.proto == ETH_P_IPX then BRIDGE_TUNNEL else RFC1042, f, stale);
      assert f.dst + f.src + (Be16(f.proto) + f.body) == EthernetBytes(f);
    } else {
      var c, e := Convert(f.dst, f.src, |p|, p, stale), EthernetBytes(f);
      if IsEncapsulated((p + stale)[..8]) {
        assert |c| < |e|;
      } else if |p| != f.proto {
        assert c[12] == |p| / 256 && c[13] == |p| % 256;
        assert e[12] == f.proto / 256 && e[13] == f.proto % 256;
      }
    }
  }

  /** The Ethernet frame that these bytes are. */
  function ParseEthernet(b: Bytes): Ethernet
    requires |b| >= ETH_HLEN
  {
    Ethernet(b[..6], b[6..12], FromBe16(b[12..14]), b[14..])
  }

  /** The header that stands for an EtherType on the sending side. */
  predicate IsSenders(head: Bytes, ethertype: nat) {
    if head == BRIDGE_TUNNEL then ethertype == ETH_P_AARP || ethertype == ETH_P_IPX
    else head == RFC1042 && ethertype >= ETH_P_802_3_MIN && ethertype != ETH_P_AARP && ethertype != ETH_P_IPX
  }

  /** The other way round: converting a payload and encapsulating the frame again gives the
      payload back if and only if its header is the one the sending side would choose; or,
      where it stands for no EtherType, if and only if the length is one. */
  lemma EncapsulateConverted(dst: Address, src: Address, payload: Bytes, stale: Bytes)
    requires 8 <= |payload| < 0x10000 && |stale| >= 8
    ensures var head, ethertype := payload[..6], FromBe16(payload[6..8]);
      var c := Convert(dst, src, |payload|, payload, stale);
      && |c| >= ETH_HLEN && ParseEthernet(c).dst == dst && ParseEthernet(c).src == src
      && (Encapsulate(ParseEthernet(c)) == payload <==>
            if head == BRIDGE_TUNNEL || (head == RFC1042 && ethertype != ETH_P_AARP && ethertype != ETH_P_IPX)
            then IsSenders(head, ethertype) else |payload| < ETH_P_802_3_MIN)
  {
    var head, ethertype := payload[..6], FromBe16(payload[6..8]);
    assert (payload + stale)[..8] == payload[..8];
    assert payload[..8][..6] == head && payload[..8][6..8] == payload[6..8];
    assert payload == head + payload[6..8] + payload[8..];
    if IsEncapsulated(payload[..8]) {
      ParseParts(dst, src, payload[6..8], payload[8..]);
      assert dst + src + payload[6..] == dst + src + payload[6..8] + payload[8..];
    } else {
      ParseParts(dst, src, Be16(|payload|), payload);
    }
  }

  lemma ParseParts(dst: Address, src: Address, proto: Bytes, body: Bytes)
    requires |proto| == 2
    ensures var b := dst + src + proto + body;
            |b| >= ETH_HLEN && ParseEthernet(b) == Ethernet(dst, src, FromBe16(proto), body)
  {
    var b := dst + src + proto + body;
    assert b[..6] == dst && b[6..12] == src && b[12..14] == proto && b[14..] == body;
  }

  lemma SnapHead(llc: Bytes, f: Ethernet, stale: Bytes)
    requires |llc| == 6 && f.proto < 0x10000 && |stale| >= 8
    ensures var p := llc + Be16(f.proto) + f.body; var head := (p + stale)[..8];
            head[..6] == llc && FromBe16(head[6..8]) == f.proto && p[6..] == Be16(f.proto) + f.body
  {
    var p := llc + Be16(f.proto) + f.body;
    var head := (p + stale)[..8];
    assert head[..6] == llc && head[6..8] == Be16(f.proto);
  }
}
