/** The theorems are about something: a lawful environment, and a run in which an offer is added and sold. */
module LedgerExample {
  import opened Outcomes
  import opened Text
  import opened Conversion
  import opened Profiles
  import opened Octets
  import opened Signing
  import opened Ledger
  import opened LedgerInvariant
  import opened LedgerTheorems
  import opened LedgerCalls

  function Parse6(s: string): Option<Address6> {
    var v :- ParseInt(s, 10);
    if 0 <= v < 0x1_0000_0000_0000_0000_0000_0000_0000_0000 then Some(v) else None
  }

  const CODEC := Ip6Codec(s => Parse6(s), (a: Address6) => Show(a, 10))
  const ENV := Env(CODEC, name => Some(As(name, Cert(""))), Key(""), Cert(""),
                   (key, data, salt) => data, (cert, signature, data) => signature == data, price => "")

  const HOST := ShowIp4(V4(10, 0, 0, 1))
  const PORTS := Join([ShowInt(50000), ShowInt(50009)], '-')
  const TERMS := Terms(ShowIa(1, 1), 0, PERIOD, "", 0, 0.0, HOST + ":" + PORTS, 1000, "CORE")
  const PROFILE := IntlistToCsv([3])
  const WANTED := IntlistToCsv([1])

  lemma EnvIsLawful()
    ensures Lawful(ENV)
  {
    forall a: Address6 ensures Lawful6At(CODEC, a) {
      ParseOfShow(a, 10);
      assert forall c <- Show(a, 10) :: IsShown(c, 10);
    }
  }

  lemma TemplateIs()
    ensures IpPortRange(CODEC, TERMS.template) == Some(PortRange(V4(10, 0, 0, 1), 50000, 50009))
  {
    hide ShowIp4, ParseIp4, ShowInt, ParseInt, HostAndTail;
    var ports := [ShowInt(50000), ShowInt(50009)];
    ShowIntChars(50000);
    ShowIntChars(50009);
    ParseOfShowInt(50000);
    ParseOfShowInt(50009);
    Ip4RoundTrip(V4(10, 0, 0, 1));
    forall c <- PORTS ensures c != '\n' && c != ':' {
      JoinChars(ports, '-', c);
    }
    HostAndTailOf(HOST, PORTS);
    assert forall p <- ports :: AllDigits(p);
    SplitOfJoin(ports, '-');
  }

  lemma OfferIsValid(signature: Bytes, link: Option<Id>)
    ensures PreSave(ENV, Offer(TERMS, PROFILE, signature, link))
  {
    hide IpPortRange, IaValue, CsvToIntlist, IntlistToCsv, IsIntListText, ShowIp4, Join, ShowInt;
    TemplateIs();
    IaRoundTrip(1, 1);
    IaIs();
    CsvRoundTrip([3]);
    CsvTextOfValues([3]);
  }

  lemma IaIs()
    ensures ShowIa(1, 1) == "1-0:0:1"
  {
    hide Show, Join;
    OneDigit();
    JoinOfThree("0", "0", "1");
  }

  lemma OneDigit()
    ensures Show(1, 10) == "1" && Show(1, 16) == "1" && Show(0, 16) == "0"
  {
  }

  lemma JoinOfThree(a: string, b: string, c: string)
    ensures Join([a, b, c], ':') == a + ":" + (b + ":" + c)
  {
    assert [a, b, c][1..] == [b, c] && [b, c][1..] == [c];
    assert Join([b, c], ':') == b + ":" + Join([c], ':');
  }

  lemma PrintedIsAscii(values: seq<int>)
    requires |values| > 0 && forall v <- values :: v >= 0
    ensures IsAscii(IntlistToCsv(values))
  {
    hide IsAscii, IntlistToCsv, IsIntListText;
    CsvTextOfValues(values);
    ProfileIsAscii(IntlistToCsv(values));
  }

  lemma TemplateIsAscii()
    ensures IsAscii(TERMS.template)
  {
    hide IsAscii, ShowIp4, ShowInt;
    Ip4IsAscii(V4(10, 0, 0, 1));
    ShowIntIsAscii(50000);
    ShowIntIsAscii(50009);
    AsciiConcat(HOST, ":");
    AsciiConcat(HOST + ":", PORTS);
    assert PORTS == ShowInt(50000) + "-" + ShowInt(50009);
    AsciiConcat(ShowInt(50000), "-");
    AsciiConcat(ShowInt(50000) + "-", ShowInt(50009));
    ShortTexts();
  }

  lemma ShortTexts()
    ensures IsAscii(":") && IsAscii("-") && IsAscii("1-0:0:1") && IsAscii("CORE") && IsAscii("")
  {
  }

  lemma Labels()
    ensures IsAscii("ia:") && IsAscii("reachable:") && IsAscii("profile:") && IsAscii("br_address_template:")
    ensures IsAscii("br_mtu:") && IsAscii("br_link_to:") && IsAscii("signature:") && IsAscii("")
  {
  }

  lemma AllAscii(a: string, b: string, c: string, d: string, e: string, f: string)
    requires IsAscii(a) && IsAscii(b) && IsAscii(c) && IsAscii(d) && IsAscii(e) && IsAscii(f)
    ensures IsAscii(a + b + c + d + e + f)
  {
    hide IsAscii;
    AsciiConcat(a, b);
    AsciiConcat(a + b, c);
    AsciiConcat(a + b + c, d);
    AsciiConcat(a + b + c + d, e);
    AsciiConcat(a + b + c + d + e, f);
  }

  /** An offer can be encoded when its texts are ASCII. */
  lemma TextIsAscii(fmt: real -> string, t: Terms, profile: string)
    requires IsAscii(t.iaid) && IsAscii(t.reachable) && IsAscii(fmt(t.price)) && IsAscii(profile)
    requires IsAscii(t.template) && IsAscii(t.linkTo)
    ensures IsAscii(OfferText(fmt, t, profile))
  {
    hide IsAscii, ShowInt, TruncSeconds;
    Labels();
    var start, end := ShowInt(TruncSeconds(t.notbefore)), ShowInt(TruncSeconds(t.notafter));
    var qos, mtu := ShowInt(t.qos), ShowInt(t.mtu);
    ShowIntIsAscii(TruncSeconds(t.notbefore));
    ShowIntIsAscii(TruncSeconds(t.notafter));
    ShowIntIsAscii(t.qos);
    ShowIntIsAscii(t.mtu);
    AsciiConcat("ia:", t.iaid);
    AsciiConcat("ia:" + t.iaid, start);
    AsciiConcat("ia:" + t.iaid + start, end);
    AllAscii("reachable:", t.reachable, qos, fmt(t.price), "profile:", profile);
    AllAscii("br_address_template:", t.template, "br_mtu:", mtu, "br_link_to:", t.linkTo);
    var front := "reachable:" + t.reachable + qos + fmt(t.price) + "profile:" + profile;
    var back := "br_address_template:" + t.template + "br_mtu:" + mtu + "br_link_to:" + t.linkTo;
    AsciiConcat(back, "signature:");
    AsciiConcat(front, back + "signature:");
    AsciiConcat("ia:" + t.iaid + start + end, front + (back + "signature:"));
  }

  lemma OfferIsAscii()
    ensures IsAscii(OfferText(ENV.fmt, TERMS, PROFILE))
  {
    hide IsAscii, OfferText, IntlistToCsv;
    IaIs();
    ShortTexts();
    PrintedIsAscii([3]);
    TemplateIsAscii();
    TextIsAscii(ENV.fmt, TERMS, PROFILE);
  }

  /** In this environment a signature is the data itself. */
  function SignatureOf(data: Option<Bytes>): Bytes {
    if data.Some? then data.value else []
  }

  const SELLER := SignatureOf(SignedBytes(ENV, Offer(TERMS, PROFILE, [], None)))
  const ADD := Entry(Call.AddOffer(TERMS, PROFILE, SELLER), Fresh(0, 1, 0, 0, 0))

  function BuyFrom(copy: Offer): Entry {
    var signature := SignatureOf(OrderData(ENV, Order("1-0:0:1", [], WANTED, 0), copy));
    Entry(PurchaseExact(Request(MessageOf(1, copy), "1-0:0:1", WANTED, 0, signature)), Fresh(2, 0, 0, 0, 0))
  }

  lemma AddWorks()
    ensures Linked(EMPTY) && Exec(ENV, EMPTY, ADD.call, ADD.drawn).Ok?
  {
    hide OfferText, PreSave, Add;
    OfferIsAscii();
    OfferIsValid(SELLER, None);
    AddSucceedsIff(ENV, EMPTY, TERMS, PROFILE, SELLER, ADD.drawn);
  }

  /** The request for one of the three units is right. */
  lemma RequestIsOk(db: Tables, copy: Offer)
    requires 1 in db.offers && db.offers[1] == copy && copy.terms == TERMS && copy.profile == PROFILE
    ensures RequestOk(ENV, db, BuyFrom(copy).call.request, 1, 1)
  {
    hide OfferText, IpPortRange, CsvToIntlist, IntlistToCsv, IsAscii, Fits, FullBytes;
    var q := BuyFrom(copy).call.request;
    OfferIsAscii();
    SignedTextIs(copy);
    CsvRoundTrip([3]);
    CsvRoundTrip([1]);
    PrintedIsAscii([1]);
    ShortTexts();
    OneOfThree();
    var order := Order(q.buyer, q.signature, WANTED, 0);
    assert BuyerSigned(ENV, order, copy, q.buyer);
  }

  lemma OneOfThree()
    ensures Fits([3], Buy(0, [1]))
  {
    assert [1][0] > 0;
  }

  lemma BuyWorks(db: Tables, copy: Offer)
    requires Inv(ENV, db) && Linked(db) && Available(db, 1) && db.offers[1] == copy && 2 !in db.offers
    requires copy.terms == TERMS && copy.profile == PROFILE && copy.deprecates == Some(0) && IsOriginal(db, 0)
    ensures Exec(ENV, db, BuyFrom(copy).call, BuyFrom(copy).drawn).Ok?
  {
    hide PreSave, Inv, SellOffer, IpPortRange, RequestOk, Lawful;
    EnvIsLawful();
    TemplateIs();
    RequestIsOk(db, copy);
    SaleSucceedsIff(ENV, db, BuyFrom(copy).call.request, 1, 1, BuyFrom(copy).drawn);
    assert Depth(db, 1) == Depth(db, 0) + 1 && Depth(db, 0) == 0;
    assert PortFree(ENV, db, 1);
  }

  lemma SignedTextIs(copy: Offer)
    requires copy.terms == TERMS && copy.profile == PROFILE
    ensures FullBytes(ENV, copy).Some? <==> IsAscii(OfferText(ENV.fmt, TERMS, PROFILE))
  {
    hide OfferText, IsAscii;
  }

  /** In a lawful environment both calls of this run succeed, the second one with a contract. */
  lemma OfferIsSold() returns (log: seq<Entry>)
    ensures Lawful(ENV) && |log| == 2 && log[0].call.AddOffer? && log[1].call.PurchaseExact?
    ensures Succeeds(ENV, log, 0) && Succeeds(ENV, log, 1)
  {
    hide Inv, Exec, PreSave, Lawful, Linked;
    EnvIsLawful();
    AddWorks();
    var db := Exec(ENV, EMPTY, ADD.call, ADD.drawn).value;
    var copy := AddLeaves(db);
    BuyWorks(db, copy);
    log := [ADD, BuyFrom(copy)];
    assert log[..0] == [] && log[..1] == [ADD] && [ADD][..0] == [];
    assert Replay(ENV, []) == EMPTY;
    assert Replay(ENV, [ADD]) == db;
  }

  lemma AddLeaves(db: Tables) returns (copy: Offer)
    requires Linked(EMPTY) && Exec(ENV, EMPTY, ADD.call, ADD.drawn) == Ok(db)
    ensures Inv(ENV, db) && Linked(db) && Available(db, 1) && db.offers[1] == copy && 2 !in db.offers
    ensures copy.terms == TERMS && copy.profile == PROFILE && copy.deprecates == Some(0) && IsOriginal(db, 0)
  {
    hide PreSave, Inv, Lawful, Add, SellerSigned, BrokerSigned;
    EnvIsLawful();
    InvEmpty(ENV);
    ExecKeeps(ENV, EMPTY, ADD.call, ADD.drawn);
    InvIsLinked(ENV, db);
    var original;
    original, copy := AddShape(ENV, EMPTY, TERMS, PROFILE, SELLER, ADD.drawn);
  }

  // ---------------------------------------------------------------- two ends, two layouts

  const EARLY := TERMS.(notbefore := -500_000, notafter := PERIOD - 500_000)

  /** A valid offer that starts half a second before 1970 has different bytes in the service and the client. */
  lemma EarlyLayoutsDiffer(signature: Bytes, link: Option<Id>)
    ensures PreSave(ENV, Offer(EARLY, PROFILE, signature, link))
    ensures OfferBytes(ENV.fmt, EARLY, PROFILE, signature).Some?
    ensures GoOffer(ENV.fmt, SpecOf(EARLY, PROFILE, signature)) != OfferBytes(ENV.fmt, EARLY, PROFILE, signature).value
  {
    hide IpPortRange, IaValue, CsvToIntlist, IntlistToCsv, IsIntListText, ShowIp4, Join, ShowInt, OfferText, GoOffer,
      IsAscii;
    OfferIsValid(signature, link);
    IaIs();
    ShortTexts();
    PrintedIsAscii([3]);
    TemplateIsAscii();
    TextIsAscii(ENV.fmt, EARLY, PROFILE);
    OfferLayoutsAgree(ENV.fmt, EARLY, PROFILE, signature);
  }

  // ---------------------------------------------------------------- two spellings of one AS

  const STORED := "1-ff00:0:111"
  const WRITTEN := "1-FF00:0:111"

  /** The same environment with a registry that finds the AS under either spelling. */
  const FOLDING := ENV.(findAs := name => if name == STORED || name == WRITTEN then Some(As(STORED, Cert(""))) else None)

  /** A request in the spelling that is not stored, signed by the client over its own bytes. */
  function WrittenRequest(copy: Offer): Request {
    var q := Request(MessageOf(1, copy), WRITTEN, WANTED, 0, []);
    q.(signature := ClientOrder(FOLDING, q))
  }

  lemma SpellingsAreAscii()
    ensures IsAscii(STORED) && IsAscii(WRITTEN) && STORED != WRITTEN
  {
    assert STORED[2] != WRITTEN[2];
  }

  /** The registry finds the AS, but the bytes differ, and the purchase is refused for its signature. */
  lemma OtherSpellingIsRefused(copy: Offer)
    requires PreSave(FOLDING, copy) && copy.terms == TERMS && copy.profile == PROFILE
    ensures FOLDING.findAs(WRITTEN).Some? && WholeSecondOrAfterEpoch(copy.terms.notbefore)
    ensures PlaceOrder(FOLDING, WrittenRequest(copy), 1, copy, copy) == Err(BadSignature)
  {
    hide OfferText, PreSave, CsvToIntlist, IntlistToCsv, IsAscii, Fits, FullBytes, ClientOrder, OrderBytes;
    var q := WrittenRequest(copy);
    var order := Order(STORED, q.signature, WANTED, 0);
    OfferIsAscii();
    SignedTextIs(copy);
    CsvRoundTrip([3]);
    CsvRoundTrip([1]);
    PrintedIsAscii([1]);
    SpellingsAreAscii();
    OneOfThree();
    SameBytes(copy);
    OrderIsEncoded(FullBytes(FOLDING, copy).value, STORED, WANTED, 0);
    assert OrderData(FOLDING, order, copy).Some?;
    RequestLayoutsAgree(FOLDING, q, 1, copy, copy);
    OwnSignature(copy);
  }

  lemma SameBytes(copy: Offer)
    ensures FullBytes(FOLDING, copy) == FullBytes(ENV, copy)
  {
    hide OfferBytes;
  }

  lemma OwnSignature(copy: Offer)
    ensures ClientOrder(FOLDING, WrittenRequest(copy)) == WrittenRequest(copy).signature
  {
    hide GoOrder, SpecOf, FloorSeconds, IntlistToCsv;
  }

  lemma OrderIsEncoded(offer: Bytes, buyer: string, profile: string, start: int)
    requires IsAscii(buyer) && IsAscii(profile)
    ensures OrderBytes(offer, buyer, profile, start).Some?
  {
  }
}
