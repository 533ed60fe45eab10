/** The converse of the parser's correctness: every packet it accepts is laid out as the headers prescribe. */
module PacketDecode {
  import opened Outcomes
  import opened Octets
  import opened Packet

  lemma Adjacent(p: Bytes, a: nat, b: nat, c: nat)
    requires a <= b <= c <= |p|
    ensures p[a..b] + p[b..c] == p[a..c]
  {
  }

  // ---------------------------------------------------------------- numbers

  lemma Two(p: Bytes, i: nat)
    requires i + 2 <= |p|
    ensures ToBe16(Be16(p, i)) == p[i..i + 2]
  {
    var n := Be16(p, i);
    assert n / 0x100 == p[i] as nat && n % 0x100 == p[i + 1] as nat;
  }

  lemma Four(p: Bytes, i: nat)
    requires i + 4 <= |p|
    ensures ToBe32(Be32(p, i)) == p[i..i + 4]
  {
    hide ToBe16, Be16;
    var high, low := Be16(p, i), Be16(p, i + 2);
    assert Be32(p, i) / 0x1_0000 == high && Be32(p, i) % 0x1_0000 == low;
    Two(p, i);
    Two(p, i + 2);
  }

  lemma MetaRecombines(m: nat)
    requires m < 0x1_0000_0000
    ensures m / 0x4000_0000 < 4
    ensures m == m / 0x4000_0000 * 0x4000_0000 + CurrHf(m) * 0x100_0000 + m / 0x4_0000 % 64 * 0x4_0000
                 + Seg0(m) * 0x1000 + Seg1(m) * 64 + Seg2(m)
  {
    var m1 := m / 64;
    var m2 := m1 / 64;
    var m3 := m2 / 64;
    var m4 := m3 / 64;
    assert m / 0x1000 == m2 && m / 0x4_0000 == m3 && m / 0x100_0000 == m4 && m / 0x4000_0000 == m4 / 64;
    assert m == m1 * 64 + m % 64 && m1 == m2 * 64 + m1 % 64 && m2 == m3 * 64 + m2 % 64;
    assert m3 == m4 * 64 + m3 % 64 && m4 == m4 / 64 * 64 + m4 % 64;
  }

  lemma AddressesRecombine(b: nat)
    requires b < 256
    ensures b == b / 64 * 64 + b / 16 % 4 * 16 + b / 4 % 4 * 4 + b % 4 && b / 64 < 4
  {
    assert b / 16 / 4 == b / 64 && b / 4 / 4 == b / 16;
  }

  // ---------------------------------------------------------------- the path

  function DecodeHop(p: Bytes, i: nat): (h: HopField)
    requires i + HOP_SIZE <= |p|
    ensures HopOk(h)
  {
    HopField(p[i], p[i + 1], Be16(p, i + 2), Be16(p, i + 4), p[i + 6..i + 12])
  }

  lemma HopDecodes(p: Bytes, i: nat)
    requires i + HOP_SIZE <= |p|
    ensures HopBytes(DecodeHop(p, i)) == p[i..i + HOP_SIZE]
  {
    hide ToBe16, Be16;
    Two(p, i + 2);
    Two(p, i + 4);
    assert p[i..i + 12] == [p[i], p[i + 1]] + p[i + 2..i + 4] + p[i + 4..i + 6] + p[i + 6..i + 12];
  }

  function DecodeHops(p: Bytes, at: nat, n: nat): (hops: seq<HopField>)
    requires at + HOP_SIZE * n <= |p|
    ensures |hops| == n && forall k :: 0 <= k < n ==> HopOk(hops[k])
  {
    if n == 0 then [] else DecodeHops(p, at, n - 1) + [DecodeHop(p, at + HOP_SIZE * (n - 1))]
  }

  lemma {:induction false} HopsDecode(p: Bytes, at: nat, n: nat)
    requires at + HOP_SIZE * n <= |p|
    ensures HopsBytes(DecodeHops(p, at, n)) == p[at..at + HOP_SIZE * n]
  {
    hide HopBytes, DecodeHop;
    if n > 0 {
      var last := at + HOP_SIZE * (n - 1);
      HopsDecode(p, at, n - 1);
      HopDecodes(p, last);
      assert DecodeHops(p, at, n)[..n - 1] == DecodeHops(p, at, n - 1);
      Adjacent(p, at, last, last + HOP_SIZE);
    }
  }

  function DecodeInfos(p: Bytes, at: nat, n: nat): (infos: seq<Bytes>)
    requires at + INFO_SIZE * n <= |p|
    ensures |infos| == n && forall k :: 0 <= k < n ==> |infos[k]| == 8
  {
    if n == 0 then [] else DecodeInfos(p, at, n - 1) + [p[at + INFO_SIZE * (n - 1)..at + INFO_SIZE * n]]
  }

  lemma {:induction false} InfosDecode(p: Bytes, at: nat, n: nat)
    requires at + INFO_SIZE * n <= |p|
    ensures InfosBytes(DecodeInfos(p, at, n)) == p[at..at + INFO_SIZE * n]
  {
    if n > 0 {
      InfosDecode(p, at, n - 1);
      assert DecodeInfos(p, at, n)[..n - 1] == DecodeInfos(p, at, n - 1);
      Adjacent(p, at, at + INFO_SIZE * (n - 1), at + INFO_SIZE * n);
    }
  }

  /** Where the current hop field ends. */
  function HopEnd(p: Bytes, path: nat): (end: nat)
    requires path + META_SIZE <= |p|
    ensures end >= path
  {
    var meta := Be32(p, path);
    path + META_SIZE + INFO_SIZE * NumInf(meta) + HOP_SIZE * (CurrHf(meta) + 1)
  }

  function DecodePath(p: Bytes, path: nat): (t: Path)
    requires path + META_SIZE <= |p| && HopEnd(p, path) <= |p|
    ensures PathOk(t)
  {
    var meta := Be32(p, path);
    MetaRecombines(meta);
    var infos := path + META_SIZE;
    Path(meta / 0x4000_0000, CurrHf(meta), meta / 0x4_0000 % 64, [Seg0(meta), Seg1(meta), Seg2(meta)],
         DecodeInfos(p, infos, NumInf(meta)),
         DecodeHops(p, infos + INFO_SIZE * NumInf(meta), CurrHf(meta) + 1))
  }

  lemma PathDecodes(p: Bytes, path: nat)
    requires path + META_SIZE <= |p| && HopEnd(p, path) <= |p|
    ensures PathBytes(DecodePath(p, path)) == p[path..HopEnd(p, path)]
  {
    hide Be32, ToBe32, CurrHf, NumInf, Seg0, Seg1, Seg2, InfosBytes, HopsBytes, DecodeInfos, DecodeHops;
    var meta := Be32(p, path);
    var t := DecodePath(p, path);
    var infos := path + META_SIZE;
    var hops := infos + INFO_SIZE * NumInf(meta);
    MetaRecombines(meta);
    assert Meta(t) == meta;
    Four(p, path);
    InfosDecode(p, infos, NumInf(meta));
    HopsDecode(p, hops, CurrHf(meta) + 1);
    Adjacent(p, path, infos, hops);
    Adjacent(p, path, hops, HopEnd(p, path));
  }

  // ---------------------------------------------------------------- the SCION header and the underlay

  function DecodeScion(p: Bytes, at: nat, path: nat): (s: Scion)
    requires PathOffset(p, at) == Some(path) && path + META_SIZE <= |p| && HopEnd(p, path) <= |p|
    ensures ScionOk(s)
  {
    var a := p[at + 9] as nat;
    Scion(p[at] as nat, p[at + 1..at + 4], p[at + 4..at + 8], a / 64, a / 16 % 4, a / 4 % 4, a % 4,
          p[at + 10..at + 12], p[at + 12..at + 28], p[at + 28..path], DecodePath(p, path))
  }

  lemma HeadDecodes(p: Bytes, at: nat, path: nat)
    requires PathOffset(p, at) == Some(path) && path + META_SIZE <= |p| && HopEnd(p, path) <= |p|
    ensures ScionHead(DecodeScion(p, at, path)) == p[at..at + SCION_SIZE]
  {
    hide DecodePath, HopEnd;
    AddressesRecombine(p[at + 9] as nat);
    assert p[at..at + 28] == [p[at]] + p[at + 1..at + 4] + p[at + 4..at + 8] + [p[at + 8]] + [p[at + 9]]
      + p[at + 10..at + 12] + p[at + 12..at + 28];
  }

  function DecodeUnderlay(p: Bytes, udp: nat): (u: Underlay)
    requires UdpOffset(p) == Some(udp)
    ensures UnderlayOk(u)
  {
    if p[12] == 0x08 && p[13] == 0x00 then
      Ip4(p[14] as nat / 16, p[15..23], p[24..34], p[34..udp])
    else Ip6(p[14..20], p[21..54])
  }

  lemma UnderlayDecodes(p: Bytes, udp: nat)
    requires UdpOffset(p) == Some(udp)
    ensures UnderlayBytes(p[..12], DecodeUnderlay(p, udp)) == p[..udp]
  {
    if p[12] == 0x08 && p[13] == 0x00 {
      var ihl := p[14] as nat % 16;
      assert udp == 34 + OptionBytes(ihl) && udp - 34 == 4 * ihl - 20;
      assert p[..udp] == p[..12] + [p[12], p[13]] + [p[14]] + p[15..23] + [p[23]] + p[24..34] + p[34..udp];
    } else {
      assert p[..udp] == p[..12] + [p[12], p[13]] + p[14..20] + [p[20]] + p[21..54];
    }
  }

  // ---------------------------------------------------------------- the whole packet

  lemma HopInside(p: Bytes, path: nat, prev: bool)
    requires path + META_SIZE <= |p|
    ensures HopOffset(p, path, prev).Some? <==> HopEnd(p, path) <= |p|
  {
    hide NumInf, CurrHf, Be32;
  }

  /** Every packet that gets a key is some frame, to an accepted port. */
  lemma CountedIsFrame(p: Bytes, ports: PortFilter, prev: bool) returns (f: Frame)
    requires HopKey(p, ports, prev).Some?
    ensures FrameOk(f) && Encode(f) == p && ports.first <= Le16(f.udpDst, 0) <= ports.last
  {
    hide UdpOffset, PathOffset, HopOffset, HopEnd, UnderlayBytes, PathBytes, ScionHead, DecodePath;
    var udp := UdpOffset(p).value;
    var at := udp + UDP_SIZE;
    var path := PathOffset(p, at).value;
    assert path + META_SIZE <= |p| by {
      NeedsMeta(p, path, prev);
    }
    HopInside(p, path, prev);
    var end := HopEnd(p, path);
    f := Frame(p[..12], DecodeUnderlay(p, udp), p[udp..udp + 2], p[udp + 2..udp + 4], p[udp + 4..udp + 8],
               DecodeScion(p, at, path), p[end..]);
    UnderlayDecodes(p, udp);
    HeadDecodes(p, at, path);
    PathDecodes(p, path);
    Pieces(p, udp, at, path, end);
  }

  lemma NeedsMeta(p: Bytes, path: nat, prev: bool)
    requires HopOffset(p, path, prev).Some?
    ensures path + META_SIZE <= |p|
  {
  }

  lemma Pieces(p: Bytes, udp: nat, at: nat, path: nat, end: nat)
    requires at == udp + 8 && at + 28 <= path <= end <= |p|
    ensures p[..udp] + (p[udp..udp + 2] + p[udp + 2..udp + 4] + p[udp + 4..udp + 8])
            + (p[at..at + 28] + p[at + 28..path] + p[path..end]) + p[end..] == p
  {
    Adjacent(p, udp, udp + 2, udp + 4);
    Adjacent(p, udp, udp + 4, at);
    Adjacent(p, at, at + 28, path);
    Adjacent(p, at, path, end);
    assert p[..udp] + p[udp..at] + p[at..end] + p[end..] == p;
  }

  /**
   * The parser gives a packet a key exactly when the packet is a frame to an accepted port, and then the key
   * is that of the frame.
   */
  lemma ParserIff(p: Bytes, ports: PortFilter, prev: bool, key: nat)
    ensures HopKey(p, ports, prev) == Some(key) <==>
      exists f :: FrameOk(f) && Encode(f) == p && ports.first <= Le16(f.udpDst, 0) <= ports.last
                  && KeyOfPath(f.scion, prev) == key
  {
    hide HopKey, Encode, KeyOfPath;
    if HopKey(p, ports, prev) == Some(key) {
      var f := CountedIsFrame(p, ports, prev);
      ParserCorrect(f, ports, prev);
    }
    if f :| FrameOk(f) && Encode(f) == p && ports.first <= Le16(f.udpDst, 0) <= ports.last
            && KeyOfPath(f.scion, prev) == key {
      ParserCorrect(f, ports, prev);
    }
  }
}
