/**
 * The monitor's packet parser over byte strings, and packets laid out as the headers prescribe:
 * IPv4 (section 3.1 of RFC 791) or IPv6, UDP, and the SCION common, address and path headers.
 */
module Packet {
  import opened Outcomes
  import opened Octets

  const ETH_SIZE := 14
  const IP4_SIZE := 20
  const IP6_SIZE := 40
  const UDP_SIZE := 8
  const SCION_SIZE := 28
  const META_SIZE := 4
  const INFO_SIZE := 8
  const HOP_SIZE := 12
  const PROTO_UDP: byte := 17
  const PATH_TYPE_SCION: byte := 1

  /** Ports as the data path compares them: both sides loaded in the same, little-endian, order. */
  datatype PortFilter = PortFilter(first: nat, last: nat)

  // ---------------------------------------------------------------- what the parser accepts

  /** `size_t` arithmetic: an IHL below 5 wraps around. */
  function OptionBytes(ihl: nat): nat
    requires ihl < 16
  {
    (4 * ihl - IP4_SIZE) % 0x1_0000_0000_0000_0000
  }

  /** Offset of the UDP header. */
  function UdpOffset(p: Bytes): (r: Option<nat>)
    ensures r.Some? ==> ETH_SIZE + IP4_SIZE <= r.value && r.value + UDP_SIZE <= |p|
  {
    if |p| < ETH_SIZE then None
    else
      var at :-
        if p[12] == 0x08 && p[13] == 0x00 then
          if |p| < ETH_SIZE + IP4_SIZE then None
          else
            var skip := OptionBytes(p[ETH_SIZE] as nat % 16);
            if skip > 40 || p[ETH_SIZE + 9] != PROTO_UDP then None else Some(ETH_SIZE + IP4_SIZE + skip)
        else if p[12] == 0x86 && p[13] == 0xDD then
          if |p| < ETH_SIZE + IP6_SIZE || p[ETH_SIZE + 6] != PROTO_UDP then None else Some(ETH_SIZE + IP6_SIZE)
        else None;
      if at + UDP_SIZE > |p| then None else Some(at)
  }

  function Seg0(meta: nat): nat { meta / 0x1000 % 64 }
  function Seg1(meta: nat): nat { meta / 64 % 64 }
  function Seg2(meta: nat): nat { meta % 64 }
  function CurrHf(meta: nat): nat { meta / 0x100_0000 % 64 }

  function NumInf(meta: nat): nat {
    (if Seg0(meta) > 0 then 1 else 0) + (if Seg1(meta) > 0 then 1 else 0) + (if Seg2(meta) > 0 then 1 else 0)
  }

  /** Offset of the hop field, from the offset of the path header. */
  function HopOffset(p: Bytes, path: nat, prev: bool): Option<int> {
    if path + META_SIZE > |p| then None
    else
      var meta := Be32(p, path);
      var hf := path + META_SIZE + NumInf(meta) * INFO_SIZE + CurrHf(meta) * HOP_SIZE;
      if hf + HOP_SIZE > |p| then None else Some(if prev then hf - HOP_SIZE else hf)
  }

  function DstLength(haddr: byte): nat { haddr as nat / 16 % 4 }
  function SrcLength(haddr: byte): nat { haddr as nat % 4 }

  /** Offset of the path header, from the offset of the SCION common header. */
  function PathOffset(p: Bytes, at: nat): (r: Option<nat>)
    ensures r.Some? ==> at + SCION_SIZE + 8 <= r.value <= |p|
  {
    if at + SCION_SIZE > |p| || p[at] as nat / 16 != 0 then None
    else
      var path := at + SCION_SIZE + 8 + 4 * DstLength(p[at + 9]) + 4 * SrcLength(p[at + 9]);
      if path > |p| || p[at + 8] != PATH_TYPE_SCION then None else Some(path)
  }

  function KeyAt(p: Bytes, hf: int): (key: nat)
    requires 0 <= hf && hf + HOP_SIZE <= |p|
    ensures key < 0x1_0000_0000
  {
    Le16(p, hf + 2) + Le16(p, hf + 4) * 0x1_0000
  }

  /** Even one hop field before the first, nothing outside the packet is read. */
  lemma HopInBounds(p: Bytes, at: nat, prev: bool)
    requires PathOffset(p, at).Some? && HopOffset(p, PathOffset(p, at).value, prev).Some?
    ensures var hf := HopOffset(p, PathOffset(p, at).value, prev).value; at <= hf && hf + HOP_SIZE <= |p|
  {
  }

  /** The counter key of a packet, or None for one that is not counted. */
  function HopKey(p: Bytes, ports: PortFilter, prev: bool): (key: Option<nat>)
    ensures key.Some? ==> key.value < 0x1_0000_0000
  {
    var udp :- UdpOffset(p);
    if Le16(p, udp + 2) < ports.first || Le16(p, udp + 2) > ports.last then None
    else
      var path :- PathOffset(p, udp + UDP_SIZE);
      var hf :- HopOffset(p, path, prev);
      HopInBounds(p, udp + UDP_SIZE, prev);
      Some(KeyAt(p, hf))
  }

  /** Where the UDP header of a packet starts, by its Ethernet type and IPv4 header length. */
  ghost predicate UdpStarts(p: Bytes, udp: nat) {
    && |p| >= 34
    && (|| (p[12] == 0x08 && p[13] == 0x00 && p[23] == 17 && p[14] as nat % 16 >= 5
            && udp == 14 + 4 * (p[14] as nat % 16))
        || (p[12] == 0x86 && p[13] == 0xDD && p[20] == 17 && udp == 54))
  }

  /**
   * A packet is counted only when it is UDP over IPv4, with a header length that makes sense, or over IPv6,
   * goes to an accepted port, and carries a version 0 SCION header with a standard path.
   */
  lemma OnlyScionCounted(p: Bytes, ports: PortFilter, prev: bool) returns (udp: nat)
    requires HopKey(p, ports, prev).Some?
    ensures UdpStarts(p, udp) && udp + UDP_SIZE + SCION_SIZE + 8 + META_SIZE + HOP_SIZE <= |p|
    ensures ports.first <= Le16(p, udp + 2) <= ports.last
    ensures p[udp + 8] < 16 && p[udp + 16] == 1
  {
    hide Be32, NumInf, CurrHf, DstLength, SrcLength, KeyAt, Le16;
    udp := UdpOffset(p).value;
    assert p[12] == 0x08 && p[13] == 0x00 ==> OptionBytes(p[ETH_SIZE] as nat % 16) <= 40;
  }

  // ---------------------------------------------------------------- the parser itself

  /** Pointers into the packet, as offsets. */
  class Headers {
    var eth: int
    var ip: int
    var udp: int
    var scion: int
    var hf: int

    constructor () {
      eth, ip, udp, scion, hf := 0, 0, 0, 0, 0;
    }
  }

  method ParseUnderlay(hdr: Headers, p: Bytes) returns (ok: bool, data: int)
    modifies hdr
    ensures ok <==> UdpOffset(p).Some?
    ensures ok ==> hdr.udp == UdpOffset(p).value && data == hdr.udp + UDP_SIZE
  {
    data := 0;
    hdr.eth := data;
    data := data + ETH_SIZE;
    if data > |p| {
      return false, data;
    }
    if p[12] == 0x08 && p[13] == 0x00 {
      hdr.ip := data;
      data := data + IP4_SIZE;
      if data > |p| {
        return false, data;
      }
      var skip := OptionBytes(p[hdr.ip] as nat % 16);
      if skip > 40 {
        return false, data;
      }
      data := data + skip;
      if p[hdr.ip + 9] != PROTO_UDP {
        return false, data;
      }
    } else if p[12] == 0x86 && p[13] == 0xDD {
      hdr.ip := data;
      data := data + IP6_SIZE;
      if data > |p| {
        return false, data;
      }
      if p[hdr.ip + 6] != PROTO_UDP {
        return false, data;
      }
    } else {
      return false, data;
    }
    hdr.udp := data;
    data := data + UDP_SIZE;
    return data <= |p|, data;
  }

  method ParseScionPath(hdr: Headers, p: Bytes, start: nat, prev: bool) returns (ok: bool)
    requires start <= |p|
    modifies hdr
    ensures hdr.udp == old(hdr.udp)
    ensures ok <==> HopOffset(p, start, prev).Some?
    ensures ok ==> hdr.hf == HopOffset(p, start, prev).value
  {
    var data := start + META_SIZE;
    if data > |p| {
      return false;
    }
    var meta := Be32(p, start);
    var numInf := NumInf(meta);
    var firstHf := data + numInf * INFO_SIZE;
    hdr.hf := firstHf + CurrHf(meta) * HOP_SIZE;
    if hdr.hf + HOP_SIZE > |p| {
      return false;
    }
    if prev {
      hdr.hf := hdr.hf - HOP_SIZE;
    }
    return true;
  }

  method ParseScion(hdr: Headers, p: Bytes, start: nat, prev: bool) returns (ok: bool)
    requires start <= |p|
    modifies hdr
    ensures hdr.udp == old(hdr.udp)
    ensures ok <==> PathOffset(p, start).Some? && HopOffset(p, PathOffset(p, start).value, prev).Some?
    ensures ok ==> hdr.hf == HopOffset(p, PathOffset(p, start).value, prev).value
  {
    hdr.scion := start;
    var data := start + SCION_SIZE;
    if data > |p| {
      return false;
    }
    if p[start] as nat / 16 != 0 {
      return false;
    }
    data := data + 8 + 4 * DstLength(p[start + 9]) + 4 * SrcLength(p[start + 9]);
    if data > |p| {
      return false;
    }
    if p[start + 8] != PATH_TYPE_SCION {
      return false;
    }
    ok := ParseScionPath(hdr, p, data, prev);
  }

  /** The first half of `count`: parse, filter by port, and load the key from the hop field. */
  method ExtractKey(p: Bytes, ports: PortFilter, prev: bool) returns (key: Option<nat>)
    ensures key == HopKey(p, ports, prev)
  {
    var hdr := new Headers();
    var ok, data := ParseUnderlay(hdr, p);
    if !ok {
      return None;
    }
    if Le16(p, hdr.udp + 2) < ports.first || Le16(p, hdr.udp + 2) > ports.last {
      return None;
    }
    ok := ParseScion(hdr, p, data, prev);
    if !ok {
      return None;
    }
    HopInBounds(p, data, prev);
    return Some(KeyAt(p, hdr.hf));
  }

  // ---------------------------------------------------------------- packets

  datatype HopField = HopField(flags: byte, exp: byte, ingress: nat, egress: nat, mac: Bytes)

  datatype Underlay =
    | Ip4(version: nat, beforeProto: Bytes, afterProto: Bytes, options: Bytes)
    | Ip6(beforeNext: Bytes, afterNext: Bytes)

  datatype Path = Path(currInf: nat, currHf: nat, reserved: nat, segs: seq<nat>, infos: seq<Bytes>, hops: seq<HopField>)

  datatype Scion = Scion(
    traffic: nat, flow: Bytes, lengths: Bytes, dstType: nat, dstLen: nat, srcType: nat, srcLen: nat,
    reserved: Bytes, isdAs: Bytes, hosts: Bytes, path: Path)

  datatype Frame = Frame(macs: Bytes, underlay: Underlay, udpSrc: Bytes, udpDst: Bytes, udpRest: Bytes,
                         scion: Scion, payload: Bytes)

  predicate HopOk(h: HopField) {
    h.ingress < 0x1_0000 && h.egress < 0x1_0000 && |h.mac| == 6
  }

  predicate UnderlayOk(u: Underlay) {
    match u
    case Ip4(version, before, after, options) =>
      version < 16 && |before| == 8 && |after| == 10 && |options| <= 40 && |options| % 4 == 0
    case Ip6(before, after) => |before| == 6 && |after| == 33
  }

  /** Segments of the path header that have hop fields. */
  function InUse(segs: seq<nat>): nat
    requires |segs| == 3
  {
    (if segs[0] > 0 then 1 else 0) + (if segs[1] > 0 then 1 else 0) + (if segs[2] > 0 then 1 else 0)
  }

  /**
   * Three segment lengths, an info field for each segment in use, and hop fields up to the current one at
   * least. Any further hop fields may be counted to the payload.
   */
  predicate PathOk(t: Path) {
    && t.currInf < 4 && t.reserved < 64 && t.currHf < 64
    && |t.segs| == 3 && t.segs[0] < 64 && t.segs[1] < 64 && t.segs[2] < 64
    && |t.infos| == InUse(t.segs) && (forall i :: 0 <= i < |t.infos| ==> |t.infos[i]| == 8)
    && t.currHf < |t.hops| && forall i :: 0 <= i < |t.hops| ==> HopOk(t.hops[i])
  }

  predicate ScionOk(s: Scion) {
    && s.traffic < 16 && |s.flow| == 3 && |s.lengths| == 4 && |s.reserved| == 2 && |s.isdAs| == 16
    && s.dstType < 4 && s.dstLen < 4 && s.srcType < 4 && s.srcLen < 4
    && |s.hosts| == 4 * (s.dstLen + 1) + 4 * (s.srcLen + 1)
    && PathOk(s.path)
  }

  predicate FrameOk(f: Frame) {
    && |f.macs| == 12 && UnderlayOk(f.underlay) && |f.udpSrc| == 2 && |f.udpDst| == 2 && |f.udpRest| == 4
    && ScionOk(f.scion)
  }

  function HopBytes(h: HopField): (b: Bytes)
    requires HopOk(h)
    ensures |b| == HOP_SIZE
  {
    [h.flags, h.exp] + ToBe16(h.ingress) + ToBe16(h.egress) + h.mac
  }

  function HopsBytes(hops: seq<HopField>): (b: Bytes)
    requires forall i :: 0 <= i < |hops| ==> HopOk(hops[i])
    ensures |b| == HOP_SIZE * |hops|
  {
    if |hops| == 0 then [] else HopsBytes(hops[..|hops| - 1]) + HopBytes(hops[|hops| - 1])
  }

  function InfosBytes(infos: seq<Bytes>): (b: Bytes)
    requires forall i :: 0 <= i < |infos| ==> |infos[i]| == 8
    ensures |b| == INFO_SIZE * |infos|
  {
    if |infos| == 0 then [] else InfosBytes(infos[..|infos| - 1]) + infos[|infos| - 1]
  }

  function Meta(t: Path): (n: nat)
    requires PathOk(t)
    ensures n < 0x1_0000_0000
  {
    t.currInf * 0x4000_0000 + t.currHf * 0x100_0000 + t.reserved * 0x4_0000 +
    t.segs[0] * 0x1000 + t.segs[1] * 64 + t.segs[2]
  }

  /** The path header up to its hop fields. */
  function FrontBytes(t: Path): (b: Bytes)
    requires PathOk(t)
    ensures |b| == META_SIZE + INFO_SIZE * |t.infos|
  {
    ToBe32(Meta(t)) + InfosBytes(t.infos)
  }

  function PathBytes(t: Path): Bytes
    requires PathOk(t)
  {
    FrontBytes(t) + HopsBytes(t.hops)
  }

  function ScionHead(s: Scion): (b: Bytes)
    requires ScionOk(s)
    ensures |b| == SCION_SIZE
  {
    [s.traffic as byte] + s.flow + s.lengths + [1] +
    [(s.dstType * 64 + s.dstLen * 16 + s.srcType * 4 + s.srcLen) as byte] + s.reserved + s.isdAs
  }

  function UnderlayBytes(macs: Bytes, u: Underlay): Bytes
    requires |macs| == 12 && UnderlayOk(u)
  {
    match u
    case Ip4(version, before, after, options) =>
      macs + [0x08, 0x00] + [(version * 16 + 5 + |options| / 4) as byte] + before + [17] + after + options
    case Ip6(before, after) => macs + [0x86, 0xDD] + before + [17] + after
  }

  function Encode(f: Frame): Bytes
    requires FrameOk(f)
  {
    UnderlayBytes(f.macs, f.underlay) + (f.udpSrc + f.udpDst + f.udpRest) +
    (ScionHead(f.scion) + f.scion.hosts + PathBytes(f.scion.path)) + f.payload
  }

  // ---------------------------------------------------------------- the parser finds the hop field

  lemma UnderlayParsed(p: Bytes, macs: Bytes, u: Underlay)
    requires |macs| == 12 && UnderlayOk(u) && Holds(p, 0, UnderlayBytes(macs, u))
    requires |UnderlayBytes(macs, u)| + UDP_SIZE <= |p|
    ensures UdpOffset(p) == Some(|UnderlayBytes(macs, u)|)
  {
    var b := UnderlayBytes(macs, u);
    assert p[12] == b[12] && p[13] == b[13];
    match u {
      case Ip4(version, before, after, options) =>
        var head := macs + [0x08, 0x00];
        var first := (version * 16 + 5 + |options| / 4) as byte;
        assert b == head + ([first] + before + [17] + after) + options;
        assert b[14] == first && b[23] == PROTO_UDP && b[12] == 0x08 && b[13] == 0x00;
        assert p[14] == b[14] && p[23] == b[23];
        HeaderLength(version, |options| / 4);
      case Ip6(before, after) =>
        assert b[12] == 0x86 && b[13] == 0xDD && b[20] == PROTO_UDP;
        assert p[20] == b[20];
    }
  }

  lemma HeaderLength(version: nat, words: nat)
    requires version < 16 && words <= 10
    ensures (version * 16 + 5 + words) % 16 == 5 + words && OptionBytes(5 + words) == 4 * words
  {
  }

  lemma MetaFields(t: Path)
    requires PathOk(t)
    ensures CurrHf(Meta(t)) == t.currHf && NumInf(Meta(t)) == |t.infos|
  {
    var s0, s1, s2 := t.segs[0], t.segs[1], t.segs[2];
    var m4 := t.currInf * 64 + t.currHf;
    var m3 := m4 * 64 + t.reserved;
    var m2 := m3 * 64 + s0;
    var m1 := m2 * 64 + s1;
    var m := Meta(t);
    assert m == m1 * 64 + s2;
    Shift6(m1, s2);
    Shift6(m2, s1);
    Shift6(m3, s0);
    Shift6(m4, t.reserved);
    Shift6(t.currInf, t.currHf);
    Shifts(m);
  }

  lemma Shift6(n: nat, d: nat)
    requires d < 64
    ensures (n * 64 + d) / 64 == n && (n * 64 + d) % 64 == d
  {
  }

  lemma Shifts(m: nat)
    ensures m / 0x1000 == m / 64 / 64 && m / 0x100_0000 == m / 64 / 64 / 64 / 64
  {
  }

  lemma {:induction false} HopAt(p: Bytes, at: int, hops: seq<HopField>, i: nat)
    requires forall k :: 0 <= k < |hops| ==> HopOk(hops[k])
    requires Holds(p, at, HopsBytes(hops)) && i < |hops|
    ensures Holds(p, at + HOP_SIZE * i, HopBytes(hops[i]))
  {
    var n := |hops| - 1;
    HoldsPart(p, at, HopsBytes(hops[..n]), HopBytes(hops[n]), []);
    assert HopsBytes(hops) == HopsBytes(hops[..n]) + HopBytes(hops[n]) + [];
    if i < n {
      HopAt(p, at, hops[..n], i);
    }
  }

  /** The key of a hop field: both interface ids loaded in little-endian order. */
  function KeyOf(h: HopField): nat
    requires HopOk(h)
  {
    Reverse16(h.ingress) + Reverse16(h.egress) * 0x1_0000
  }

  lemma KeyLoaded(p: Bytes, hf: int, h: HopField)
    requires HopOk(h) && Holds(p, hf, HopBytes(h))
    ensures KeyAt(p, hf) == KeyOf(h)
  {
    var b := HopBytes(h);
    assert p[hf + 2] == b[2] && p[hf + 3] == b[3] && p[hf + 4] == b[4] && p[hf + 5] == b[5];
    assert b[2] == ToBe16(h.ingress)[0] && b[3] == ToBe16(h.ingress)[1];
    assert b[4] == ToBe16(h.egress)[0] && b[5] == ToBe16(h.egress)[1];
  }

  lemma PathParsed(p: Bytes, at: nat, t: Path, prev: bool)
    requires PathOk(t) && Holds(p, at, PathBytes(t))
    ensures HopOffset(p, at, prev).Some?
    ensures var hf := HopOffset(p, at, prev).value;
      if prev && t.currHf == 0 then hf == at + INFO_SIZE * |t.infos| + META_SIZE - HOP_SIZE && Holds(p, at, FrontBytes(t))
      else Holds(p, hf, HopBytes(t.hops[if prev then t.currHf - 1 else t.currHf]))
  {
    hide HopBytes, HopsBytes, InfosBytes, Meta, NumInf, CurrHf;
    HoldsPart(p, at, ToBe32(Meta(t)), InfosBytes(t.infos), HopsBytes(t.hops));
    assert PathBytes(t) == [] + FrontBytes(t) + HopsBytes(t.hops);
    HoldsPart(p, at, [], FrontBytes(t), HopsBytes(t.hops));
    MetaLoaded(p, at, Meta(t));
    MetaFields(t);
    HopAt(p, at + META_SIZE + INFO_SIZE * |t.infos|, t.hops, t.currHf);
    if prev && t.currHf > 0 {
      HopAt(p, at + META_SIZE + INFO_SIZE * |t.infos|, t.hops, t.currHf - 1);
    }
  }

  lemma MetaLoaded(p: Bytes, at: int, meta: nat)
    requires meta < 0x1_0000_0000 && Holds(p, at, ToBe32(meta))
    ensures Be32(p, at) == meta
  {
    var b := ToBe32(meta);
    assert p[at] == b[0] && p[at + 1] == b[1] && p[at + 2] == b[2] && p[at + 3] == b[3];
  }

  lemma ScionParsed(p: Bytes, at: nat, s: Scion)
    requires ScionOk(s) && Holds(p, at, ScionHead(s)) && at + SCION_SIZE + |s.hosts| <= |p|
    ensures PathOffset(p, at) == Some(at + SCION_SIZE + |s.hosts|)
  {
    var b := ScionHead(s);
    assert b[8] == PATH_TYPE_SCION;
    assert b[9] as nat == s.dstType * 64 + s.dstLen * 16 + s.srcType * 4 + s.srcLen;
    assert p[at] == b[0] && p[at + 8] == b[8] && p[at + 9] == b[9];
    AddressLengths(b[9], s.dstType, s.dstLen, s.srcType, s.srcLen);
  }

  lemma AddressLengths(haddr: byte, dt: nat, dl: nat, st: nat, sl: nat)
    requires dt < 4 && dl < 4 && st < 4 && sl < 4
    requires haddr as nat == dt * 64 + dl * 16 + st * 4 + sl
    ensures DstLength(haddr) == dl && SrcLength(haddr) == sl
  {
    assert haddr as nat / 16 == dt * 4 + dl;
  }

  /** What stands before the hop fields: the hosts of the address header, and the path header up to there. */
  function BeforeHops(s: Scion): (b: Bytes)
    requires ScionOk(s)
    ensures |b| >= HOP_SIZE
  {
    s.hosts + FrontBytes(s.path)
  }

  /**
   * The key that belongs to a path: that of the current hop field, or of the one before it. Before the first
   * hop field there is none, and the key comes from the last bytes that stand there instead.
   */
  function KeyOfPath(s: Scion, prev: bool): nat
    requires ScionOk(s)
  {
    var t := s.path;
    if prev && t.currHf == 0 then
      var b := BeforeHops(s);
      Le16(b, |b| - 10) + Le16(b, |b| - 8) * 0x1_0000
    else KeyOf(t.hops[if prev then t.currHf - 1 else t.currHf])
  }

  lemma KeyFromEnd(p: Bytes, end: int, b: Bytes)
    requires |b| >= HOP_SIZE && Holds(p, end - |b|, b)
    ensures KeyAt(p, end - HOP_SIZE) == Le16(b, |b| - 10) + Le16(b, |b| - 8) * 0x1_0000
  {
    var n, at := |b|, end - |b|;
    assert p[at + (n - 10)] == b[n - 10] && p[at + (n - 9)] == b[n - 9];
    assert p[at + (n - 8)] == b[n - 8] && p[at + (n - 7)] == b[n - 7];
  }

  lemma HoldsBoth(p: Bytes, at: int, s: Bytes, t: Bytes)
    requires Holds(p, at, s) && Holds(p, at + |s|, t)
    ensures Holds(p, at, s + t)
  {
    forall i | 0 <= i < |s + t| ensures p[at + i] == (s + t)[i] {
      if i >= |s| {
        assert p[at + |s| + (i - |s|)] == t[i - |s|];
      }
    }
  }

  /**
   * For every well-formed packet to an accepted port the parser extracts the key of the current hop field,
   * or of the one before it when it is asked for that.
   */
  lemma ParserCorrect(f: Frame, ports: PortFilter, prev: bool)
    requires FrameOk(f) && ports.first <= Le16(f.udpDst, 0) <= ports.last
    ensures HopKey(Encode(f), ports, prev) == Some(KeyOfPath(f.scion, prev))
  {
    hide UnderlayBytes, ScionHead, PathBytes, HopBytes, UdpOffset, PathOffset, HopOffset, KeyAt, KeyOf, Encode,
      Octets.Holds, FrameOk, FrontBytes;
    var p, t := Encode(f), f.scion.path;
    var udp, at, path := FrameLayout(f);
    UnderlayParsed(p, f.macs, f.underlay);
    ScionParsed(p, at, f.scion);
    PathParsed(p, path, t, prev);
    HopInBounds(p, at, prev);
    if prev && t.currHf == 0 {
      HoldsBoth(p, at + SCION_SIZE, f.scion.hosts, FrontBytes(t));
      KeyFromEnd(p, path + |FrontBytes(t)|, BeforeHops(f.scion));
    } else {
      KeyLoaded(p, HopOffset(p, path, prev).value, t.hops[if prev then t.currHf - 1 else t.currHf]);
    }
    PortLoaded(p, udp + 2, f.udpDst);
  }

  lemma PortLoaded(p: Bytes, at: int, port: Bytes)
    requires |port| == 2 && Octets.Holds(p, at, port)
    ensures Le16(p, at) == Le16(port, 0)
  {
    assert p[at] == port[0] && p[at + 1] == port[1];
  }

  /** Where the headers of an encoded packet are. */
  lemma FrameLayout(f: Frame) returns (udp: nat, at: nat, path: nat)
    requires FrameOk(f)
    ensures ScionOk(f.scion) && |f.macs| == 12 && UnderlayOk(f.underlay) && |f.udpDst| == 2
    ensures var p := Encode(f);
      && udp == |UnderlayBytes(f.macs, f.underlay)| && at == udp + UDP_SIZE && path == at + SCION_SIZE + |f.scion.hosts|
      && Octets.Holds(p, 0, UnderlayBytes(f.macs, f.underlay)) && at + SCION_SIZE + |f.scion.hosts| <= |p|
      && Octets.Holds(p, udp + 2, f.udpDst) && Octets.Holds(p, at, ScionHead(f.scion))
      && Octets.Holds(p, at + SCION_SIZE, f.scion.hosts)
      && Octets.Holds(p, path, PathBytes(f.scion.path))
  {
    hide UnderlayBytes, ScionHead, PathBytes;
    var p := Encode(f);
    var u, ports := UnderlayBytes(f.macs, f.underlay), f.udpSrc + f.udpDst + f.udpRest;
    var head, tail := ScionHead(f.scion), PathBytes(f.scion.path);
    var scion := head + f.scion.hosts + tail;
    var rest := scion + f.payload;
    assert p == u + ports + rest;
    assert Octets.Holds(p, 0, u + ports + rest);
    HoldsPart(p, 0, u, ports, rest);
    HoldsPart(p, |u|, f.udpSrc, f.udpDst, f.udpRest);
    udp, at, path := |u|, |u| + UDP_SIZE, |u| + UDP_SIZE + SCION_SIZE + |f.scion.hosts|;
    assert rest == scion + f.payload + [];
    HoldsPart(p, at, scion, f.payload, []);
    HoldsPart(p, at, head, f.scion.hosts, tail);
  }

  // ---------------------------------------------------------------- two monitors, one key

  /** Roles of monitors and directions of travel share the same two values. */
  datatype Side = Upstream | Downstream

  datatype Port = UpPort | DownPort

  /** Set up by the host: what arrives on the upstream port travels downstream, and the reverse. */
  function Travels(port: Port): Side {
    match port
    case UpPort => Downstream
    case DownPort => Upstream
  }

  /** The data path's `prev_hf`: the packet has already left the provider in its direction of travel. */
  predicate UsesPrevious(role: Side, port: Port) {
    role == Travels(port)
  }

  /** On its way a packet meets first the monitor on the side it comes from. */
  function FirstMonitor(port: Port): Side {
    match port
    case UpPort => Upstream
    case DownPort => Downstream
  }

  function SecondMonitor(port: Port): Side {
    match port
    case UpPort => Downstream
    case DownPort => Upstream
  }

  /** Two hop fields with the same interfaces; flags, expiry and code may differ. */
  predicate SameInterfaces(h: HopField, h': HopField) {
    h.ingress == h'.ingress && h.egress == h'.egress
  }

  /**
   * A packet that crosses the provider in either direction, its current hop field advanced by one in
   * between, is counted under the same key on both sides, whatever else was rewritten on the way.
   */
  lemma MonitorsAgree(before: Frame, after: Frame, ports: PortFilter, port: Port)
    requires FrameOk(before) && FrameOk(after)
    requires after.scion.path.currHf == before.scion.path.currHf + 1
    requires SameInterfaces(before.scion.path.hops[before.scion.path.currHf],
                            after.scion.path.hops[before.scion.path.currHf])
    requires ports.first <= Le16(before.udpDst, 0) <= ports.last
    requires ports.first <= Le16(after.udpDst, 0) <= ports.last
    ensures HopKey(Encode(before), ports, UsesPrevious(FirstMonitor(port), port))
         == HopKey(Encode(after), ports, UsesPrevious(SecondMonitor(port), port))
         == Some(KeyOf(before.scion.path.hops[before.scion.path.currHf]))
  {
    hide Encode, HopKey;
    ParserCorrect(before, ports, false);
    ParserCorrect(after, ports, true);
  }

  // ---------------------------------------------------------------- the key on the host's side

  /** A hop as the host names it: interface ids as numbers. */
  datatype Hop = Hop(ingress: nat, egress: nat)

  /** The key's bytes in memory, as they are copied into an event. */
  function EventBytes(key: nat): (b: Bytes)
    requires key < 0x1_0000_0000
    ensures |b| == 4
  {
    [(key % 0x100) as byte, (key / 0x100 % 0x100) as byte,
     (key / 0x1_0000 % 0x100) as byte, (key / 0x100_0000) as byte]
  }

  /** What the host reads from an event: two big-endian numbers. */
  function HopOfEvent(b: Bytes): (h: Hop)
    requires |b| == 4
    ensures h.ingress < 0x1_0000 && h.egress < 0x1_0000
  {
    Hop(Be16(b, 0), Be16(b, 2))
  }

  function ToMapKey(h: Hop): (key: nat)
    requires h.ingress < 0x1_0000 && h.egress < 0x1_0000
    ensures key < 0x1_0000_0000
  {
    Reverse16(h.ingress) + Reverse16(h.egress) * 0x1_0000
  }

  /** The hop decoded from the event of a key maps back to exactly that key. */
  lemma EventRoundTrip(key: nat)
    requires key < 0x1_0000_0000
    ensures ToMapKey(HopOfEvent(EventBytes(key))) == key
  {
    hide Reverse16;
    var b0, b1, b2, b3 := key % 0x100, key / 0x100 % 0x100, key / 0x1_0000 % 0x100, key / 0x100_0000;
    FourBytes(key);
    ReverseOfBytes(b0, b1);
    ReverseOfBytes(b2, b3);
  }

  lemma FourBytes(n: nat)
    requires n < 0x1_0000_0000
    ensures n == n % 0x100 + 0x100 * (n / 0x100 % 0x100) + 0x1_0000 * (n / 0x1_0000 % 0x100) + 0x100_0000 * (n / 0x100_0000)
  {
    assert n / 0x1_0000 == n / 0x100 / 0x100 && n / 0x100_0000 == n / 0x1_0000 / 0x100;
  }

  lemma ReverseOfBytes(a: nat, b: nat)
    requires a < 0x100 && b < 0x100
    ensures Reverse16(0x100 * a + b) == a + 0x100 * b
  {
  }

  lemma ReverseTwice(n: nat)
    requires n < 0x1_0000
    ensures Reverse16(Reverse16(n)) == n
  {
    ReverseOfBytes(n / 0x100, n % 0x100);
    ReverseOfBytes(n % 0x100, n / 0x100);
  }

  /** Different hops have different keys. */
  lemma ToMapKeyInjective(h: Hop, h': Hop)
    requires h.ingress < 0x1_0000 && h.egress < 0x1_0000 && h'.ingress < 0x1_0000 && h'.egress < 0x1_0000
    requires ToMapKey(h) == ToMapKey(h')
    ensures h == h'
  {
    hide Reverse16;
    ReverseTwice(h.ingress);
    ReverseTwice(h.egress);
    ReverseTwice(h'.ingress);
    ReverseTwice(h'.egress);
  }

  /** The host names a counted hop by the interface ids written in the hop field. */
  lemma HostSeesInterfaceIds(h: HopField)
    requires HopOk(h)
    ensures KeyOf(h) < 0x1_0000_0000
    ensures HopOfEvent(EventBytes(KeyOf(h))) == Hop(h.ingress, h.egress)
  {
    EventRoundTrip(KeyOf(h));
    ToMapKeyInjective(HopOfEvent(EventBytes(KeyOf(h))), Hop(h.ingress, h.egress));
  }
}
