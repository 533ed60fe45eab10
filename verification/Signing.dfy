/** The bytes that get signed, as the Python service and the Go client lay them out. */
module Signing {
  import opened Outcomes
  import opened Text
  import opened Conversion
  import opened Octets

  predicate IsAscii(s: string) {
    forall i :: 0 <= i < |s| ==> s[i] as int < 128
  }

  function Raw(s: string): Bytes
    requires IsAscii(s)
  {
    seq(|s|, i requires 0 <= i < |s| => s[i] as int as byte)
  }

  /** Python's `s.encode("ascii")`, which raises on anything else. */
  function Encode(s: string): Option<Bytes> {
    if IsAscii(s) then Some(Raw(s)) else None
  }

  /** Go's `[]byte(s)`: UTF-8. */
  function Utf8Char(c: char): Bytes {
    var n := c as int;
    if n < 0x80 then [n as byte]
    else if n < 0x800 then [(0xC0 + n / 0x40) as byte, (0x80 + n % 0x40) as byte]
    else if n < 0x1_0000 then
      [(0xE0 + n / 0x1000) as byte, (0x80 + n / 0x40 % 0x40) as byte, (0x80 + n % 0x40) as byte]
    else
      [(0xF0 + n / 0x4_0000) as byte, (0x80 + n / 0x1000 % 0x40) as byte, (0x80 + n / 0x40 % 0x40) as byte,
       (0x80 + n % 0x40) as byte]
  }

  function Utf8(s: string): Bytes {
    if |s| == 0 then [] else Utf8Char(s[0]) + Utf8(s[1..])
  }

  lemma {:induction false} Utf8OfAscii(s: string)
    requires IsAscii(s)
    ensures Utf8(s) == Raw(s)
  {
    if |s| > 0 {
      Utf8OfAscii(s[1..]);
      assert Raw(s) == [s[0] as int as byte] + Raw(s[1..]);
    }
  }

  lemma RawConcat(s: string, t: string)
    requires IsAscii(s) && IsAscii(t)
    ensures IsAscii(s + t) && Raw(s + t) == Raw(s) + Raw(t)
  {
  }

  lemma RawInjective(s: string, t: string)
    requires IsAscii(s) && IsAscii(t) && Raw(s) == Raw(t)
    ensures s == t
  {
    assert |s| == |Raw(s)| == |t|;
    forall i | 0 <= i < |s| ensures s[i] == t[i] {
      assert Raw(s)[i] == Raw(t)[i];
    }
  }

  // ---------------------------------------------------------------- the offer, in both forms

  /** The fields of an offer that a sale never changes; times are microseconds since the epoch. */
  datatype Terms = Terms(
    iaid: string, notbefore: int, notafter: int, reachable: string, qos: int, price: real,
    template: string, mtu: int, linkTo: string)

  /** Python's `int(time.timestamp())`: truncates towards zero. */
  function TruncSeconds(us: int): int {
    if us >= 0 then us / 1_000_000 else -((-us) / 1_000_000)
  }

  /** The seconds field of a protobuf timestamp: the nanoseconds are never negative. */
  function FloorSeconds(us: int): int {
    us / 1_000_000
  }

  function OfferText(fmt: real -> string, t: Terms, profile: string): string {
    "ia:" + t.iaid + ShowInt(TruncSeconds(t.notbefore)) + ShowInt(TruncSeconds(t.notafter)) +
    ("reachable:" + t.reachable + ShowInt(t.qos) + fmt(t.price) +
     "profile:" + profile +
     ("br_address_template:" + t.template + "br_mtu:" + ShowInt(t.mtu) + "br_link_to:" + t.linkTo + "signature:"))
  }

  function OfferBytes(fmt: real -> string, t: Terms, profile: string, signature: Bytes): Option<Bytes> {
    var head :- Encode(OfferText(fmt, t, profile));
    Some(head + signature)
  }

  function OrderBytes(offer: Bytes, buyer: string, profile: string, start: int): Option<Bytes> {
    var p :- Encode(profile);
    var b :- Encode(buyer);
    Some(Raw("offer:") + offer + Raw("bw_profile:") + p + Raw("buyer:") + b +
         Raw("starting_on:") + Utf8(ShowInt(TruncSeconds(start))))
  }

  function ContractBytes(order: Bytes, buyerSignature: Bytes, timestamp: int, brAddress: string): Option<Bytes> {
    var a :- Encode(brAddress);
    Some(Raw("order:") + order + Raw("signature_buyer:") + buyerSignature +
         Raw("timestamp:") + Utf8(ShowInt(TruncSeconds(timestamp))) + Raw("br_address:") + a)
  }

  /** The offer as the client receives it. */
  datatype Spec = Spec(
    iaid: string, notbefore: int, notafter: int, reachable: string, qos: int, price: real, profile: string,
    template: string, mtu: int, linkTo: string, signature: Bytes)

  /** The contract as the client receives it; the embedded offer is not used to rebuild the bytes. */
  datatype ContractMessage = ContractMessage(
    buyer: string, profile: string, start: int, buyerSignature: Bytes, timestamp: int, brAddress: string,
    signature: Bytes)

  datatype Pair = Pair(name: string, value: Bytes)

  function Pairs(pairs: seq<Pair>): Bytes {
    if |pairs| == 0 then []
    else Pairs(pairs[..|pairs| - 1]) + Utf8(pairs[|pairs| - 1].name) + pairs[|pairs| - 1].value
  }

  /** The client's variadic loop, appending a label and a value at a time. */
  method SerializePairs(pairs: seq<Pair>) returns (ret: Bytes)
    ensures ret == Pairs(pairs)
  {
    ret := [];
    for i := 0 to |pairs|
      invariant ret == Pairs(pairs[..i])
    {
      assert pairs[..i + 1][..i] == pairs[..i];
      ret := ret + Utf8(pairs[i].name);
      ret := ret + pairs[i].value;
    }
    assert pairs[..|pairs|] == pairs;
  }

  /** The format string of the client, verb by verb. */
  function GoOfferText(fmt: real -> string, s: Spec): string {
    "ia:" + s.iaid + ShowInt(s.notbefore) + ShowInt(s.notafter) +
    ("reachable:" + s.reachable + ShowInt(s.qos) + fmt(s.price) +
     "profile:" + s.profile +
     ("br_address_template:" + s.template + "br_mtu:" + ShowInt(s.mtu) + "br_link_to:" + s.linkTo + "signature:"))
  }

  function GoOffer(fmt: real -> string, s: Spec): Bytes {
    Utf8(GoOfferText(fmt, s)) + s.signature
  }

  function GoOrder(fmt: real -> string, offer: Spec, buyer: string, profile: string, start: int): Bytes {
    Pairs([Pair("offer:", GoOffer(fmt, offer)), Pair("bw_profile:", Utf8(profile)),
           Pair("buyer:", Utf8(buyer)), Pair("starting_on:", Utf8(ShowInt(start)))])
  }

  function GoContract(fmt: real -> string, c: ContractMessage, offer: Spec): Bytes {
    Pairs([Pair("order:", GoOrder(fmt, offer, c.buyer, c.profile, c.start)),
           Pair("signature_buyer:", c.buyerSignature), Pair("timestamp:", Utf8(ShowInt(c.timestamp))),
           Pair("br_address:", Utf8(c.brAddress))])
  }

  lemma PairsOfFour(a: Pair, b: Pair, c: Pair, d: Pair)
    ensures Pairs([a, b, c, d]) ==
      Utf8(a.name) + a.value + Utf8(b.name) + b.value + Utf8(c.name) + c.value + Utf8(d.name) + d.value
  {
    assert [a, b, c, d][..3] == [a, b, c] && [a, b, c][..2] == [a, b] && [a, b][..1] == [a] && [a][..0] == [];
    assert Pairs([a]) == Utf8(a.name) + a.value;
    assert Pairs([a, b]) == Pairs([a]) + Utf8(b.name) + b.value;
    assert Pairs([a, b, c]) == Pairs([a, b]) + Utf8(c.name) + c.value;
  }

  // ---------------------------------------------------------------- both layouts agree

  /** The message the market sends for a stored offer. */
  function SpecOf(t: Terms, profile: string, signature: Bytes): Spec {
    Spec(t.iaid, FloorSeconds(t.notbefore), FloorSeconds(t.notafter), t.reachable, t.qos, t.price, profile,
         t.template, t.mtu, t.linkTo, signature)
  }

  /** Both ends see the same second: false only for a fraction of a second before 1970. */
  predicate WholeSecondOrAfterEpoch(us: int) {
    us >= 0 || us % 1_000_000 == 0
  }

  lemma SecondsAgree(us: int)
    ensures TruncSeconds(us) == FloorSeconds(us) <==> WholeSecondOrAfterEpoch(us)
  {
  }

  /** The texts of consecutive numbers differ at a place that both have. */
  lemma {:induction false} ConsecutiveDiffer(m: nat) returns (i: nat)
    ensures i < |Show(m, 10)| && i < |Show(m + 1, 10)| && Show(m, 10)[i] != Show(m + 1, 10)[i]
  {
    hide Show, DigitChar;
    ShownDigits(m);
    ShownDigits(m + 1);
    if m < 9 {
      i := 0;
      DigitsDiffer(m);
    } else if m == 9 {
      i := 0;
      ShownDigits(1);
      DigitsDiffer(8);
    } else if m % 10 < 9 {
      i := |Show(m / 10, 10)|;
      DigitsDiffer(m % 10);
    } else {
      assert (m + 1) / 10 == m / 10 + 1;
      i := ConsecutiveDiffer(m / 10);
    }
  }

  lemma ShownDigits(n: nat)
    ensures Show(n, 10) == if n < 10 then [DigitChar(n)] else Show(n / 10, 10) + [DigitChar(n % 10)]
  {
    hide DigitChar;
  }

  lemma DigitsDiffer(d: nat)
    requires d < 9
    ensures DigitChar(d) != DigitChar(d + 1) && DigitChar(9) != DigitChar(1)
  {
  }

  lemma SecondsDiffer(us: int) returns (i: nat)
    requires !WholeSecondOrAfterEpoch(us)
    ensures DifferAt(ShowInt(FloorSeconds(us)), ShowInt(TruncSeconds(us)), i)
  {
    hide Show;
    var m := (-us) / 1_000_000;
    assert TruncSeconds(us) == -m && FloorSeconds(us) == -(m + 1);
    if m == 0 {
      ShowIntChars(0);
      assert ShowInt(0)[0] in ShowInt(0);
      i := 0;
    } else {
      var j := ConsecutiveDiffer(m);
      i := j + 1;
    }
  }

  /** Two texts or byte strings differ at a place that both have, whatever comes after it. */
  ghost predicate DifferAt<T>(s: seq<T>, s': seq<T>, i: nat) {
    i < |s| && i < |s'| && s[i] != s'[i]
  }

  lemma DifferInside<T>(head: seq<T>, s: seq<T>, tail: seq<T>, s': seq<T>, tail': seq<T>, i: nat)
    requires DifferAt(s, s', i)
    ensures DifferAt(head + s + tail, head + s' + tail', |head| + i)
  {
    assert (head + s + tail)[|head| + i] == s[i];
    assert (head + s' + tail')[|head| + i] == s'[i];
  }

  lemma Regroup(a: string, b: string, c: string, d: string)
    ensures a + b + c + d == a + b + (c + d)
  {
  }

  /** Both ends see the same seconds. */
  predicate SameSeconds(t: Terms) {
    WholeSecondOrAfterEpoch(t.notbefore) && WholeSecondOrAfterEpoch(t.notafter)
  }

  lemma OfferTextsAgree(fmt: real -> string, t: Terms, profile: string, signature: Bytes)
    requires SameSeconds(t)
    ensures GoOfferText(fmt, SpecOf(t, profile, signature)) == OfferText(fmt, t, profile)
  {
    hide ShowInt;
    SecondsAgree(t.notbefore);
    SecondsAgree(t.notafter);
  }

  lemma OfferTextsDiffer(fmt: real -> string, t: Terms, profile: string, signature: Bytes) returns (i: nat)
    requires !SameSeconds(t)
    ensures DifferAt(GoOfferText(fmt, SpecOf(t, profile, signature)), OfferText(fmt, t, profile), i)
  {
    hide ShowInt, TruncSeconds, FloorSeconds, WholeSecondOrAfterEpoch;
    SecondsAgree(t.notbefore);
    SecondsAgree(t.notafter);
    var head := "ia:" + t.iaid;
    var n, n' := ShowInt(TruncSeconds(t.notbefore)), ShowInt(FloorSeconds(t.notbefore));
    var a, a' := ShowInt(TruncSeconds(t.notafter)), ShowInt(FloorSeconds(t.notafter));
    var tail := "reachable:" + t.reachable + ShowInt(t.qos) + fmt(t.price) +
      "profile:" + profile +
      ("br_address_template:" + t.template + "br_mtu:" + ShowInt(t.mtu) + "br_link_to:" + t.linkTo + "signature:");
    assert OfferText(fmt, t, profile) == (head + n) + a + tail;
    assert GoOfferText(fmt, SpecOf(t, profile, signature)) == (head + n') + a' + tail;
    Regroup(head, n, a, tail);
    Regroup(head, n', a', tail);
    if !WholeSecondOrAfterEpoch(t.notbefore) {
      i := SecondsDiffer(t.notbefore);
      DifferInside(head, n', a' + tail, n, a + tail, i);
      i := |head| + i;
    } else {
      i := SecondsDiffer(t.notafter);
      DifferInside(head + n, a', tail, a, tail, i);
      i := |head + n| + i;
    }
  }

  lemma ShowIntIsAscii(n: int)
    ensures IsAscii(ShowInt(n))
  {
    ShowIntChars(n);
    assert forall i :: 0 <= i < |ShowInt(n)| ==> ShowInt(n)[i] in ShowInt(n);
  }

  lemma GoTextIsAscii(fmt: real -> string, t: Terms, profile: string, signature: Bytes)
    requires IsAscii(OfferText(fmt, t, profile))
    ensures IsAscii(GoOfferText(fmt, SpecOf(t, profile, signature)))
  {
    hide ShowInt;
    var head := "ia:" + t.iaid;
    var n, n' := ShowInt(TruncSeconds(t.notbefore)), ShowInt(FloorSeconds(t.notbefore));
    var a, a' := ShowInt(TruncSeconds(t.notafter)), ShowInt(FloorSeconds(t.notafter));
    var tail := "reachable:" + t.reachable + ShowInt(t.qos) + fmt(t.price) +
      "profile:" + profile +
      ("br_address_template:" + t.template + "br_mtu:" + ShowInt(t.mtu) + "br_link_to:" + t.linkTo + "signature:");
    assert OfferText(fmt, t, profile) == head + n + a + tail;
    assert GoOfferText(fmt, SpecOf(t, profile, signature)) == head + n' + a' + tail;
    ShowIntIsAscii(FloorSeconds(t.notbefore));
    ShowIntIsAscii(FloorSeconds(t.notafter));
    AsciiMiddle(head, n, a, tail, n', a');
  }

  lemma AsciiMiddle(head: string, n: string, a: string, tail: string, n': string, a': string)
    requires IsAscii(head + n + a + tail) && IsAscii(n') && IsAscii(a')
    ensures IsAscii(head + n' + a' + tail)
  {
    var s, s' := head + n + a + tail, head + n' + a' + tail;
    assert s[..|head|] == head && s[|head| + |n| + |a|..] == tail;
    assert IsAscii(head) && IsAscii(tail);
  }

  lemma OfferBytesAgree(fmt: real -> string, t: Terms, profile: string, signature: Bytes)
    requires OfferBytes(fmt, t, profile, signature).Some? && SameSeconds(t)
    ensures GoOffer(fmt, SpecOf(t, profile, signature)) == OfferBytes(fmt, t, profile, signature).value
  {
    hide OfferText, GoOfferText, Utf8, Raw, SameSeconds;
    OfferTextsAgree(fmt, t, profile, signature);
    Utf8OfAscii(OfferText(fmt, t, profile));
  }

  lemma OfferBytesDiffer(fmt: real -> string, t: Terms, profile: string, signature: Bytes) returns (i: nat)
    requires OfferBytes(fmt, t, profile, signature).Some? && !SameSeconds(t)
    ensures DifferAt(GoOffer(fmt, SpecOf(t, profile, signature)), OfferBytes(fmt, t, profile, signature).value, i)
  {
    hide OfferText, GoOfferText, Utf8, SameSeconds;
    var text, text' := OfferText(fmt, t, profile), GoOfferText(fmt, SpecOf(t, profile, signature));
    GoTextIsAscii(fmt, t, profile, signature);
    Utf8OfAscii(text');
    i := OfferTextsDiffer(fmt, t, profile, signature);
    assert Raw(text')[i] != Raw(text)[i];
  }

  /** An offer serialises to the same bytes on both sides exactly when both see the same seconds. */
  lemma OfferLayoutsAgree(fmt: real -> string, t: Terms, profile: string, signature: Bytes)
    requires OfferBytes(fmt, t, profile, signature).Some?
    ensures GoOffer(fmt, SpecOf(t, profile, signature)) == OfferBytes(fmt, t, profile, signature).value
      <==> SameSeconds(t)
  {
    hide OfferBytes, GoOffer, SameSeconds;
    if SameSeconds(t) {
      OfferBytesAgree(fmt, t, profile, signature);
    } else {
      var i := OfferBytesDiffer(fmt, t, profile, signature);
    }
  }

  lemma AsciiConcat(s: string, t: string)
    ensures IsAscii(s + t) <==> IsAscii(s) && IsAscii(t)
  {
    assert forall i :: 0 <= i < |s| ==> (s + t)[i] == s[i];
    assert forall i :: 0 <= i < |t| ==> (s + t)[|s| + i] == t[i];
  }

  /** Whether an offer can be encoded does not depend on which ASCII profile it carries. */
  lemma ProfileKeepsAscii(fmt: real -> string, t: Terms, profile: string, profile': string)
    requires IsAscii(OfferText(fmt, t, profile)) && IsAscii(profile')
    ensures IsAscii(OfferText(fmt, t, profile'))
  {
    hide IsAscii, ShowInt;
    var head := "ia:" + t.iaid + ShowInt(TruncSeconds(t.notbefore)) + ShowInt(TruncSeconds(t.notafter));
    var front := "reachable:" + t.reachable + ShowInt(t.qos) + fmt(t.price) + "profile:";
    var back :=
      "br_address_template:" + t.template + "br_mtu:" + ShowInt(t.mtu) + "br_link_to:" + t.linkTo + "signature:";
    assert OfferText(fmt, t, profile) == head + (front + profile + back);
    assert OfferText(fmt, t, profile') == head + (front + profile' + back);
    AsciiConcat(head, front + profile + back);
    AsciiConcat(front + profile, back);
    AsciiConcat(front, profile);
    AsciiConcat(front, profile');
    AsciiConcat(front + profile', back);
    AsciiConcat(head, front + profile' + back);
  }

  lemma LabelsAreAscii()
    ensures IsAscii("offer:") && IsAscii("bw_profile:") && IsAscii("buyer:") && IsAscii("starting_on:")
    ensures IsAscii("order:") && IsAscii("signature_buyer:") && IsAscii("timestamp:") && IsAscii("br_address:")
  {
  }

  /** What follows the offer in an order, up to the start. */
  function OrderMiddle(buyer: string, profile: string): Bytes {
    Utf8("bw_profile:") + Utf8(profile) + Utf8("buyer:") + Utf8(buyer) + Utf8("starting_on:")
  }

  lemma OrderBytesAre(offer: Bytes, buyer: string, profile: string, start: int)
    requires OrderBytes(offer, buyer, profile, start).Some?
    ensures OrderBytes(offer, buyer, profile, start).value
         == Utf8("offer:") + offer + (OrderMiddle(buyer, profile) + Utf8(ShowInt(TruncSeconds(start))))
  {
    hide Utf8, Raw, ShowInt;
    LabelsAreAscii();
    Utf8OfAscii("offer:");
    Utf8OfAscii("bw_profile:");
    Utf8OfAscii("buyer:");
    Utf8OfAscii("starting_on:");
    Utf8OfAscii(profile);
    Utf8OfAscii(buyer);
  }

  lemma GoOrderIs(fmt: real -> string, offer: Spec, buyer: string, profile: string, start: int)
    ensures GoOrder(fmt, offer, buyer, profile, start)
         == Utf8("offer:") + GoOffer(fmt, offer) + (OrderMiddle(buyer, profile) + Utf8(ShowInt(start)))
  {
    hide Utf8, GoOffer, Pairs, ShowInt;
    PairsOfFour(Pair("offer:", GoOffer(fmt, offer)), Pair("bw_profile:", Utf8(profile)), Pair("buyer:", Utf8(buyer)),
                Pair("starting_on:", Utf8(ShowInt(start))));
  }

  lemma ShownBytesInjective(m: int, n: int)
    requires Utf8(ShowInt(m)) == Utf8(ShowInt(n))
    ensures m == n
  {
    hide Utf8, Raw, ShowInt, IsAscii;
    ShowIntIsAscii(m);
    ShowIntIsAscii(n);
    Utf8OfAscii(ShowInt(m));
    Utf8OfAscii(ShowInt(n));
    RawInjective(ShowInt(m), ShowInt(n));
    ShowIntInjective(m, n);
  }

  lemma PrefixCancels<T>(head: seq<T>, s: seq<T>, s': seq<T>)
    requires head + s == head + s'
    ensures s == s'
  {
    assert (head + s)[|head|..] == s && (head + s')[|head|..] == s';
  }

  lemma SuffixCancels<T>(s: seq<T>, s': seq<T>, tail: seq<T>)
    requires s + tail == s' + tail
    ensures s == s'
  {
    assert |s| == |s'|;
    assert (s + tail)[..|s|] == s && (s' + tail)[..|s'|] == s';
  }

  /** A byte string is determined on both sides of the last place where a byte occurs. */
  lemma CutLast(s: Bytes, u: Bytes, s': Bytes, u': Bytes, c: byte)
    requires c !in u && c !in u' && s + ([c] + u) == s' + ([c] + u')
    ensures s == s' && u == u'
  {
    var all, all' := s + ([c] + u), s' + ([c] + u');
    assert all[|s|] == c && all'[|s'|] == c;
    assert all[..|s|] == s && all'[..|s'|] == s' && all[|s| + 1..] == u && all'[|s'| + 1..] == u';
  }

  lemma Utf8Length(c: char)
    ensures var b := Utf8Char(c);
      && |b| == (if b[0] < 0x80 then 1 else if b[0] < 0xE0 then 2 else if b[0] < 0xF0 then 3 else 4)
  {
  }

  lemma Sextets(n: nat)
    ensures n == n / 0x40 * 0x40 + n % 0x40
    ensures n == n / 0x1000 * 0x1000 + n / 0x40 % 0x40 * 0x40 + n % 0x40
    ensures n == n / 0x4_0000 * 0x4_0000 + n / 0x1000 % 0x40 * 0x1000 + n / 0x40 % 0x40 * 0x40 + n % 0x40
  {
    assert n / 0x1000 == n / 0x40 / 0x40 && n / 0x4_0000 == n / 0x1000 / 0x40;
  }

  lemma Utf8CharInjective(c: char, d: char)
    requires Utf8Char(c) == Utf8Char(d)
    ensures c == d
  {
    Sextets(c as int);
    Sextets(d as int);
  }

  /** Different texts have different bytes. */
  lemma {:induction false} Utf8Injective(s: string, t: string)
    requires Utf8(s) == Utf8(t)
    ensures s == t
    decreases |s|
  {
    hide Utf8Char;
    if |s| == 0 || |t| == 0 {
      if |s| > 0 {
        Utf8Length(s[0]);
      }
      if |t| > 0 {
        Utf8Length(t[0]);
      }
    } else {
      Utf8Length(s[0]);
      Utf8Length(t[0]);
      var b, c := Utf8Char(s[0]), Utf8Char(t[0]);
      assert b[0] == Utf8(s)[0] && c[0] == Utf8(t)[0];
      assert Utf8(s)[..|b|] == b && Utf8(t)[..|c|] == c;
      assert Utf8(s)[|b|..] == Utf8(s[1..]) && Utf8(t)[|c|..] == Utf8(t[1..]);
      Utf8CharInjective(s[0], t[0]);
      Utf8Injective(s[1..], t[1..]);
      assert s == [s[0]] + s[1..] && t == [t[0]] + t[1..];
    }
  }

  lemma ShownHasNoColon(n: int)
    ensures ':' as int as byte !in Utf8(ShowInt(n))
  {
    hide Utf8, ShowInt;
    ShowIntIsAscii(n);
    ShowIntChars(n);
    Utf8OfAscii(ShowInt(n));
    var s := ShowInt(n);
    assert forall i :: 0 <= i < |s| ==> s[i] in s;
  }

  /** Buyer and start are determined by what follows the offer: the last colon comes before the start. */
  lemma OrderEndsInjective(profile: string, buyer: string, seconds: int, stored: string, seconds': int)
    requires OrderMiddle(buyer, profile) + Utf8(ShowInt(seconds)) == OrderMiddle(stored, profile) + Utf8(ShowInt(seconds'))
    ensures buyer == stored && seconds == seconds'
  {
    hide Utf8, ShowInt, IsAscii, Raw;
    var u, u' := Utf8(ShowInt(seconds)), Utf8(ShowInt(seconds'));
    var head := Utf8("bw_profile:") + Utf8(profile) + Utf8("buyer:");
    var word := StartLabel();
    var colon := ':' as int as byte;
    ShownHasNoColon(seconds);
    ShownHasNoColon(seconds');
    assert OrderMiddle(buyer, profile) + u == head + Utf8(buyer) + word + ([colon] + u);
    assert OrderMiddle(stored, profile) + u' == head + Utf8(stored) + word + ([colon] + u');
    CutLast(head + Utf8(buyer) + word, u, head + Utf8(stored) + word, u', colon);
    SuffixCancels(head + Utf8(buyer), head + Utf8(stored), word);
    PrefixCancels(head, Utf8(buyer), Utf8(stored));
    Utf8Injective(buyer, stored);
    ShownBytesInjective(seconds, seconds');
  }

  lemma StartLabel() returns (word: Bytes)
    ensures Utf8("starting_on:") == word + [':' as int as byte]
  {
    hide Utf8;
    Utf8OfAscii("starting_on:");
    RawConcat("starting_on", ":");
    assert "starting_on" + ":" == "starting_on:";
    word := Raw("starting_on");
  }

  lemma OrdersDiffer(fmt: real -> string, t: Terms, profile: string, signature: Bytes, buyer: string, stored: string,
                     buyerProfile: string, start: int, seconds: int) returns (i: nat)
    requires OfferBytes(fmt, t, profile, signature).Some? && !SameSeconds(t)
    requires OrderBytes(OfferBytes(fmt, t, profile, signature).value, stored, buyerProfile, start).Some?
    ensures DifferAt(GoOrder(fmt, SpecOf(t, profile, signature), buyer, buyerProfile, seconds),
                     OrderBytes(OfferBytes(fmt, t, profile, signature).value, stored, buyerProfile, start).value, i)
  {
    hide Utf8, OfferBytes, GoOffer, GoOrder, OrderBytes, ShowInt, OrderMiddle, SameSeconds, TruncSeconds;
    var offer := OfferBytes(fmt, t, profile, signature).value;
    OrderBytesAre(offer, stored, buyerProfile, start);
    GoOrderIs(fmt, SpecOf(t, profile, signature), buyer, buyerProfile, seconds);
    i := OfferBytesDiffer(fmt, t, profile, signature);
    DifferInside(Utf8("offer:"), GoOffer(fmt, SpecOf(t, profile, signature)),
                 OrderMiddle(buyer, buyerProfile) + Utf8(ShowInt(seconds)), offer,
                 OrderMiddle(stored, buyerProfile) + Utf8(ShowInt(TruncSeconds(start))), i);
    i := |Utf8("offer:")| + i;
  }

  /** The client's order with any buyer and start second, against the service's bytes of an order. */
  lemma OrderLayoutsIff(fmt: real -> string, t: Terms, profile: string, signature: Bytes, buyer: string, stored: string,
                        buyerProfile: string, start: int, seconds: int)
    requires OfferBytes(fmt, t, profile, signature).Some?
    requires OrderBytes(OfferBytes(fmt, t, profile, signature).value, stored, buyerProfile, start).Some?
    ensures GoOrder(fmt, SpecOf(t, profile, signature), buyer, buyerProfile, seconds)
         == OrderBytes(OfferBytes(fmt, t, profile, signature).value, stored, buyerProfile, start).value
      <==> SameSeconds(t) && buyer == stored && seconds == TruncSeconds(start)
  {
    hide Utf8, OfferBytes, GoOffer, GoOrder, OrderBytes, ShowInt, OrderMiddle, SameSeconds, TruncSeconds, IsAscii;
    if SameSeconds(t) {
      var offer := OfferBytes(fmt, t, profile, signature).value;
      OrderBytesAre(offer, stored, buyerProfile, start);
      GoOrderIs(fmt, SpecOf(t, profile, signature), buyer, buyerProfile, seconds);
      OfferBytesAgree(fmt, t, profile, signature);
      var tail := OrderMiddle(buyer, buyerProfile) + Utf8(ShowInt(seconds));
      var tail' := OrderMiddle(stored, buyerProfile) + Utf8(ShowInt(TruncSeconds(start)));
      if Utf8("offer:") + offer + tail == Utf8("offer:") + offer + tail' {
        PrefixCancels(Utf8("offer:") + offer, tail, tail');
        OrderEndsInjective(buyerProfile, buyer, seconds, stored, TruncSeconds(start));
      }
    } else {
      var i := OrdersDiffer(fmt, t, profile, signature, buyer, stored, buyerProfile, start, seconds);
    }
  }

  /**
   * The order bytes that the client signs for its own request, with the buyer as it wrote it and a protobuf
   * start, are those that the service validates, with the buyer as it is stored, exactly when both see the
   * same seconds of the offer and of the start and the buyer is written the same.
   */
  lemma OrderLayoutsAgree(fmt: real -> string, t: Terms, profile: string, signature: Bytes,
                          buyer: string, stored: string, buyerProfile: string, start: int)
    requires OfferBytes(fmt, t, profile, signature).Some?
    requires OrderBytes(OfferBytes(fmt, t, profile, signature).value, stored, buyerProfile, start).Some?
    ensures GoOrder(fmt, SpecOf(t, profile, signature), buyer, buyerProfile, FloorSeconds(start))
         == OrderBytes(OfferBytes(fmt, t, profile, signature).value, stored, buyerProfile, start).value
      <==> SameSeconds(t) && buyer == stored && WholeSecondOrAfterEpoch(start)
  {
    hide OfferBytes, GoOrder, OrderBytes, SameSeconds;
    OrderLayoutsIff(fmt, t, profile, signature, buyer, stored, buyerProfile, start, FloorSeconds(start));
    SecondsAgree(start);
  }

  lemma ContractBytesAre(order: Bytes, signature: Bytes, timestamp: int, brAddress: string)
    requires ContractBytes(order, signature, timestamp, brAddress).Some?
    ensures ContractBytes(order, signature, timestamp, brAddress).value
         == Utf8("order:") + order + ContractTail(signature, TruncSeconds(timestamp), brAddress)
  {
    hide Utf8, Raw, ShowInt, TruncSeconds;
    LabelsAreAscii();
    Utf8OfAscii("order:");
    Utf8OfAscii("signature_buyer:");
    Utf8OfAscii("timestamp:");
    Utf8OfAscii("br_address:");
    Utf8OfAscii(brAddress);
  }

  function ContractTail(signature: Bytes, timestamp: int, brAddress: string): Bytes {
    Utf8("signature_buyer:") + signature + Utf8("timestamp:") + Utf8(ShowInt(timestamp)) +
    Utf8("br_address:") + Utf8(brAddress)
  }

  lemma GoContractIs(fmt: real -> string, c: ContractMessage, offer: Spec)
    ensures GoContract(fmt, c, offer)
         == Utf8("order:") + GoOrder(fmt, offer, c.buyer, c.profile, c.start)
            + ContractTail(c.buyerSignature, c.timestamp, c.brAddress)
  {
    hide Utf8, GoOrder, Pairs, ShowInt;
    PairsOfFour(Pair("order:", GoOrder(fmt, offer, c.buyer, c.profile, c.start)),
                Pair("signature_buyer:", c.buyerSignature), Pair("timestamp:", Utf8(ShowInt(c.timestamp))),
                Pair("br_address:", Utf8(c.brAddress)));
  }

  /**
   * The client rebuilds, from the contract message and the offer it asked for, the bytes that the market
   * signed exactly when both see the same seconds of the offer.
   */
  lemma ContractLayoutsAgree(fmt: real -> string, t: Terms, profile: string, signature: Bytes,
                             buyer: string, buyerProfile: string, start: int, buyerSignature: Bytes,
                             timestamp: int, brAddress: string, brokerSignature: Bytes)
    requires OfferBytes(fmt, t, profile, signature).Some?
    requires OrderBytes(OfferBytes(fmt, t, profile, signature).value, buyer, buyerProfile, start).Some?
    requires var order := OrderBytes(OfferBytes(fmt, t, profile, signature).value, buyer, buyerProfile, start).value;
      ContractBytes(order, buyerSignature, timestamp, brAddress).Some?
    ensures var order := OrderBytes(OfferBytes(fmt, t, profile, signature).value, buyer, buyerProfile, start).value;
      var message := ContractMessage(buyer, buyerProfile, TruncSeconds(start), buyerSignature,
                                     TruncSeconds(timestamp), brAddress, brokerSignature);
      GoContract(fmt, message, SpecOf(t, profile, signature))
        == ContractBytes(order, buyerSignature, timestamp, brAddress).value
      <==> SameSeconds(t)
  {
    hide Utf8, OfferBytes, GoOrder, OrderBytes, ContractBytes, GoContract, ContractTail, SameSeconds, TruncSeconds;
    var order := OrderBytes(OfferBytes(fmt, t, profile, signature).value, buyer, buyerProfile, start).value;
    var order' := GoOrder(fmt, SpecOf(t, profile, signature), buyer, buyerProfile, TruncSeconds(start));
    var tail := ContractTail(buyerSignature, TruncSeconds(timestamp), brAddress);
    var message := ContractMessage(buyer, buyerProfile, TruncSeconds(start), buyerSignature,
                                   TruncSeconds(timestamp), brAddress, brokerSignature);
    ContractBytesAre(order, buyerSignature, timestamp, brAddress);
    GoContractIs(fmt, message, SpecOf(t, profile, signature));
    OrderLayoutsIff(fmt, t, profile, signature, buyer, buyer, buyerProfile, start, TruncSeconds(start));
    if !SameSeconds(t) {
      var i := OrdersDiffer(fmt, t, profile, signature, buyer, buyer, buyerProfile, start, TruncSeconds(start));
      DifferInside(Utf8("order:"), order', tail, order, tail, i);
    }
  }

  // ---------------------------------------------------------------- the order layout is injective

  /** Text up to the first occurrence of a character is determined by the whole. */
  lemma CutUnique(a: string, u: string, a': string, u': string, c: char)
    requires c !in a && c !in a'
    requires a + [c] + u == a' + [c] + u'
    ensures a == a' && u == u'
  {
    var s, s' := a + [c] + u, a' + [c] + u';
    assert s[..|a|] == a && s'[..|a'|] == a';
    FindIs(s, c, |a|);
    FindIs(s', c, |a'|);
    assert s[|a| + 1..] == u && s'[|a'| + 1..] == u';
  }

  function OrderTail(buyer: string, profile: string, start: int): string {
    profile + ("buyer:" + (buyer + ("starting_on:" + ShowInt(TruncSeconds(start)))))
  }

  lemma OrderBytesTail(offer: Bytes, buyer: string, profile: string, start: int)
    requires OrderBytes(offer, buyer, profile, start).Some?
    ensures IsAscii(OrderTail(buyer, profile, start))
    ensures OrderBytes(offer, buyer, profile, start).value
         == (Raw("offer:") + offer + Raw("bw_profile:")) + Raw(OrderTail(buyer, profile, start))
  {
    hide Raw, ShowInt, Utf8;
    LabelsAreAscii();
    var digits := ShowInt(TruncSeconds(start));
    ShowIntChars(TruncSeconds(start));
    assert forall i :: 0 <= i < |digits| ==> digits[i] in digits;
    assert IsAscii(digits);
    Utf8OfAscii(digits);
    RawConcat("starting_on:", digits);
    RawConcat(buyer, "starting_on:" + digits);
    RawConcat("buyer:", buyer + ("starting_on:" + digits));
    RawConcat(profile, "buyer:" + (buyer + ("starting_on:" + digits)));
  }

  /**
   * For the same offer bytes two orders serialise alike only when profile, buyer and start second are
   * the same, provided profiles are digits and commas and buyers are accepted ISD-AS numbers.
   */
  lemma OrderBytesInjective(offer: Bytes, buyer: string, profile: string, start: int,
                            buyer': string, profile': string, start': int)
    requires IsIntListText(profile) && IsIntListText(profile')
    requires IaValue(buyer).Some? && IaValue(buyer').Some?
    requires OrderBytes(offer, buyer, profile, start).Some?
    requires OrderBytes(offer, buyer, profile, start) == OrderBytes(offer, buyer', profile', start')
    ensures profile == profile' && buyer == buyer' && TruncSeconds(start) == TruncSeconds(start')
  {
    hide Raw, ShowInt, IaValue, OrderBytes, IsIntListText, TruncSeconds;
    OrderBytesTail(offer, buyer, profile, start);
    OrderBytesTail(offer, buyer', profile', start');
    LabelsAreAscii();
    var head := Raw("offer:") + offer + Raw("bw_profile:");
    var tail, tail' := OrderTail(buyer, profile, start), OrderTail(buyer', profile', start');
    assert (head + Raw(tail))[|head|..] == Raw(tail) && (head + Raw(tail'))[|head|..] == Raw(tail');
    RawInjective(tail, tail');
    OrderTailInjective(buyer, profile, start, buyer', profile', start');
  }

  lemma OrderTailInjective(buyer: string, profile: string, start: int, buyer': string, profile': string, start': int)
    requires IsIntListText(profile) && IsIntListText(profile')
    requires IaValue(buyer).Some? && IaValue(buyer').Some?
    requires OrderTail(buyer, profile, start) == OrderTail(buyer', profile', start')
    ensures profile == profile' && buyer == buyer' && TruncSeconds(start) == TruncSeconds(start')
  {
    hide ShowInt, IaValue, IsIntListText, TruncSeconds;
    var digits, digits' := ShowInt(TruncSeconds(start)), ShowInt(TruncSeconds(start'));
    ProfileHasNoB(profile);
    ProfileHasNoB(profile');
    CutAtMark(profile, buyer + ("starting_on:" + digits), profile', buyer' + ("starting_on:" + digits'), "buyer:");
    IaHasNoS(buyer);
    IaHasNoS(buyer');
    CutAtMark(buyer, digits, buyer', digits', "starting_on:");
    ShowIntInjective(TruncSeconds(start), TruncSeconds(start'));
  }

  /** A mark cuts a text where its first character first occurs. */
  lemma CutAtMark(a: string, u: string, a': string, u': string, mark: string)
    requires |mark| > 0 && mark[0] !in a && mark[0] !in a'
    requires a + (mark + u) == a' + (mark + u')
    ensures a == a' && u == u'
  {
    var more := mark[1..];
    assert a + (mark + u) == a + [mark[0]] + (more + u);
    assert a' + (mark + u') == a' + [mark[0]] + (more + u');
    CutUnique(a, more + u, a', more + u', mark[0]);
    assert (more + u)[|more|..] == u && (more + u')[|more|..] == u';
  }

  lemma ProfileHasNoB(profile: string)
    requires IsIntListText(profile)
    ensures 'b' !in profile
  {
    if 'b' in profile {
      JoinChars(Split(profile, ','), ',', 'b');
    }
  }
}
