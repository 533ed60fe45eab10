/** When calls succeed and with what: lookups, ports, exact success conditions, single sale, signatures. */
module LedgerCalls {
  import opened Outcomes
  import opened Text
  import opened Conversion
  import opened Profiles
  import opened Octets
  import opened Signing
  import opened Ledger
  import opened LedgerInvariant
  import opened LedgerTheorems

  // ---------------------------------------------------------------- derived lookup

  lemma {:induction false} TermsOfRoot(env: Env, db: Tables, id: Id)
    requires Inv(env, db) && id in db.offers
    ensures db.offers[id].terms == db.offers[Root(db, id)].terms
    decreases id
  {
    hide PreSave, OriginalOk, SoldOk, BrokerSigned, Purchase;
    if db.offers[id].deprecates.Some? {
      var p := db.offers[id].deprecates.value;
      assert Succ(db, p, id) && LinkOk(env, db, p, id);
      TermsOfRoot(env, db, p);
    }
  }

  /**
   * From any stored offer the walk ends at the one available offer of its chain, which is not sold and
   * has the same terms: `get_derived` never raises for an id that exists.
   */
  lemma DerivedLookup(env: Env, db: Tables, r: Request)
    requires Inv(env, db) && Linked(db) && r.offer.id in db.offers
    ensures var tip := Tip(db, r.offer.id);
      && Select(db, PurchaseEquivalent(r)) == Ok((r.offer.id, tip))
      && Available(db, tip) && tip !in db.orders && !IsOriginal(db, tip)
      && Root(db, tip) == Root(db, r.offer.id)
      && (forall a :: Available(db, a) && Root(db, a) == Root(db, tip) ==> a == tip)
      && db.offers[tip].terms == db.offers[r.offer.id].terms
  {
    hide Inv, Root, Tip;
    var id := r.offer.id;
    var tip := Tip(db, id);
    InvIsLinked(env, db);
    TipRoot(db, id);
    ChainShape(env, db, tip);
    OriginalOffers(env, db, tip);
    NotBothOriginalAndAvailable(env, db, tip);
    TermsOfRoot(env, db, id);
    TermsOfRoot(env, db, tip);
    forall a | Available(db, a) && Root(db, a) == Root(db, tip) ensures a == tip {
      OneTip(db, a, tip);
    }
  }

  lemma NotBothOriginalAndAvailable(env: Env, db: Tables, id: Id)
    requires Inv(env, db) && Available(db, id)
    ensures !IsOriginal(db, id)
  {
    assert IsOriginal(db, id) ==> OriginalOk(env, db, id);
  }

  /** Asking for the equivalent of an available offer is asking for that offer. */
  lemma EquivalentOnTip(env: Env, db: Tables, r: Request, f: Fresh)
    requires Inv(env, db) && Linked(db) && Available(db, r.offer.id)
    ensures Exec(env, db, PurchaseEquivalent(r), f) == Exec(env, db, PurchaseExact(r), f)
  {
    hide SellOffer, Inv, Root;
    DerivedLookup(env, db, r);
  }

  // ---------------------------------------------------------------- ports along a chain

  /** How many links lie between an offer and its original. */
  ghost function Depth(db: Tables, id: Id): nat
    requires Linked(db) && id in db.offers
    decreases id
  {
    match db.offers[id].deprecates
    case None => 0
    case Some(p) => Depth(db, p) + 1
  }

  function RangeOf(env: Env, o: Offer): PortRange
    requires IpPortRange(env.ip6, o.terms.template).Some?
  {
    IpPortRange(env.ip6, o.terms.template).value
  }

  lemma TemplateParses(env: Env, o: Offer)
    requires PreSave(env, o)
    ensures IpPortRange(env.ip6, o.terms.template).Some?
    ensures 0 <= RangeOf(env, o).low <= RangeOf(env, o).high <= MAX_PORT
  {
    PortRangeBounds(env.ip6, o.terms.template);
  }

  /** What `find_available_br_address` gives for an offer that is not an original. */
  ghost predicate NextAddressIs(env: Env, db: Tables, id: Id)
    requires Linked(db) && id in db.offers && IpPortRange(env.ip6, db.offers[id].terms.template).Some?
  {
    var range := RangeOf(env, db.offers[id]);
    var port := range.low + Depth(db, id) - 1;
    var last := LastAddress(db, db.offers[id]);
    && last.Ok?
    && BrAddress(env, db.offers[id].terms.template, last.value)
       == (if port > range.high then Err(NoFreePort) else Ok(IpPortToStr(env.ip6, range.ip, port)))
  }

  lemma {:induction false} NextAddress(env: Env, db: Tables, id: Id)
    requires Lawful(env) && Inv(env, db) && id in db.offers && !IsOriginal(db, id)
    ensures PreSave(env, db.offers[id]) && NextAddressIs(env, db, id)
    decreases id
  {
    hide BrokerSigned, SellerSigned, Purchase, SignedOver, IpPortToStr, IpPort, IpPortRange, Root, PreSave;
    var p := db.offers[id].deprecates.value;
    assert Succ(db, p, id) && LinkOk(env, db, p, id);
    TemplateParses(env, db.offers[id]);
    var range := RangeOf(env, db.offers[id]);
    assert Depth(db, id) == Depth(db, p) + 1;
    if IsOriginal(db, p) {
      assert OriginalOk(env, db, p);
      assert Depth(db, p) == 0 && LastAddress(db, db.offers[id]) == Ok(None);
      assert range.low <= range.high;
    } else {
      assert SoldOk(env, db, p);
      NextAddress(env, db, p);
      assert LastAddress(db, db.offers[id]) == Ok(Some(db.contracts[p].brAddress));
      IpPortRoundTrip(env.ip6, range.ip, range.low + Depth(db, p) - 1);
    }
  }

  /** The k-th contract of a chain, from 0, has the template's address and the lowest port plus k. */
  lemma PortOfContract(env: Env, db: Tables, p: Id)
    requires Lawful(env) && Inv(env, db) && p in db.orders
    ensures p in db.offers && PreSave(env, db.offers[p]) && p in db.contracts
    ensures var range := RangeOf(env, db.offers[p]);
      && 0 < Depth(db, p) && range.low + Depth(db, p) - 1 <= range.high
      && db.contracts[p].brAddress == IpPortToStr(env.ip6, range.ip, range.low + Depth(db, p) - 1)
  {
    hide Inv, Linked, IpPortToStr, IpPortRange, BrAddress, PreSave, LastAddress;
    InvIsLinked(env, db);
    SoldAddress(env, db, p);
    NextAddress(env, db, p);
    TemplateParses(env, db.offers[p]);
  }

  lemma SoldAddress(env: Env, db: Tables, p: Id)
    requires Inv(env, db) && p in db.orders
    ensures p in db.offers && !IsOriginal(db, p) && p in db.contracts && AddressOk(env, db, p)
  {
    hide PreSave, LinkOk, AddressOk, SignedOver, OriginalOk, Linked, Unique;
    assert SoldOk(env, db, p);
  }

  lemma {:induction false} DepthUnique(db: Tables, a: Id, b: Id)
    requires Linked(db) && Unique(db) && a in db.offers && b in db.offers
    requires Root(db, a) == Root(db, b) && Depth(db, a) == Depth(db, b)
    ensures a == b
    decreases a
  {
    if db.offers[a].deprecates.Some? {
      var p, q := db.offers[a].deprecates.value, db.offers[b].deprecates.value;
      DepthUnique(db, p, q);
      assert Succ(db, p, a) && Succ(db, p, b);
    }
  }

  /** Contracts of the same chain never share an address. */
  lemma AddressesDistinct(env: Env, db: Tables, p: Id, q: Id)
    requires Lawful(env) && Inv(env, db) && Linked(db) && p in db.orders && q in db.orders && p != q
    requires p in db.offers && q in db.offers && Root(db, p) == Root(db, q)
    ensures p in db.contracts && q in db.contracts && db.contracts[p].brAddress != db.contracts[q].brAddress
  {
    hide Inv, Root, Depth, IpPortToStr, IpPortRange, PreSave;
    InvIsLinked(env, db);
    PortOfContract(env, db, p);
    PortOfContract(env, db, q);
    TermsOfRoot(env, db, p);
    TermsOfRoot(env, db, q);
    TemplateParses(env, db.offers[p]);
    var range := RangeOf(env, db.offers[p]);
    if db.contracts[p].brAddress == db.contracts[q].brAddress {
      IpPortToStrInjective(env.ip6, range.ip, range.low + Depth(db, p) - 1, range.ip, range.low + Depth(db, q) - 1);
      DepthUnique(db, p, q);
    }
  }

  lemma {:induction false} HistoryLength(db: Tables, id: Id)
    requires Linked(db) && id in db.offers
    ensures |History(db, id)| == Depth(db, id) + 1
    decreases id
  {
    if db.offers[id].deprecates.Some? {
      HistoryLength(db, db.offers[id].deprecates.value);
    }
  }

  /** The sold offers, and so the contracts, of the chain that starts at `root`. */
  ghost function ContractsOf(db: Tables, root: Id): set<Id>
    requires Linked(db)
  {
    set p | p in db.contracts && p in db.offers && Root(db, p) == root
  }

  lemma {:induction false} HistoryGrows(db: Tables, id: Id, i: nat, j: nat)
    requires Linked(db) && id in db.offers && i < j < |History(db, id)|
    ensures History(db, id)[i] < History(db, id)[j]
    decreases j
  {
    hide History;
    var h := History(db, id);
    assert Succ(db, h[j - 1], h[j - 1 + 1]);
    if i < j - 1 {
      HistoryGrows(db, id, i, j - 1);
    }
  }

  ghost function Elements(s: seq<Id>): (r: set<Id>)
    ensures forall x :: x in r <==> x in s
  {
    if |s| == 0 then {}
    else
      assert s == s[..|s| - 1] + [s[|s| - 1]];
      Elements(s[..|s| - 1]) + {s[|s| - 1]}
  }

  lemma {:induction false} ElementsOfIncreasing(s: seq<Id>)
    requires forall i, j :: 0 <= i < j < |s| ==> s[i] < s[j]
    ensures |Elements(s)| == |s|
  {
    if |s| > 0 {
      ElementsOfIncreasing(s[..|s| - 1]);
      assert s[|s| - 1] !in s[..|s| - 1];
    }
  }

  lemma Between(h: seq<Id>, p: Id)
    requires |h| >= 2 && h[0] != p && h[|h| - 1] != p
    ensures p in h <==> p in h[1..|h| - 1]
  {
    assert h == [h[0]] + h[1..|h| - 1] + [h[|h| - 1]];
  }

  lemma InsideNotEnds(h: seq<Id>, p: Id)
    requires |h| >= 2 && p in h[1..|h| - 1]
    ensures exists i :: 0 < i < |h| - 1 && h[i] == p
  {
    var i :| 0 <= i < |h| - 2 && h[1..|h| - 1][i] == p;
    assert h[i + 1] == p;
  }

  /** The contracts of a chain are those of the offers between its original and its tip. */
  lemma ContractsAreBetween(env: Env, db: Tables, tip: Id, p: Id)
    requires Inv(env, db) && Available(db, tip)
    ensures |History(db, tip)| >= 2
    ensures p in ContractsOf(db, Root(db, tip)) <==> p in History(db, tip)[1..|History(db, tip)| - 1]
  {
    hide Inv, Root, History, Deprecated;
    InvIsLinked(env, db);
    ChainShape(env, db, tip);
    OrdersDeprecated(env, db, p);
    var h := History(db, tip);
    assert h[0] == Root(db, tip) && h[|h| - 1] == tip;
    if p in db.contracts && p in db.offers && Root(db, p) == Root(db, tip) {
      Between(h, p);
    }
    if p in h[1..|h| - 1] {
      InsideNotEnds(h, p);
      var i :| 0 < i < |h| - 1 && h[i] == p;
      assert p in db.contracts && p in db.offers && Root(db, p) == Root(db, tip);
    }
  }

  /** A chain has as many contracts as offers between its original and its tip. */
  lemma ContractsOfChain(env: Env, db: Tables, tip: Id)
    requires Inv(env, db) && Available(db, tip)
    ensures |ContractsOf(db, Root(db, tip))| == |History(db, tip)| - 2
  {
    hide Inv, Root, History, Deprecated, ContractsOf, Elements;
    InvIsLinked(env, db);
    var h, chain := History(db, tip), ContractsOf(db, Root(db, tip));
    ContractsAreBetween(env, db, tip, tip);
    var between := h[1..|h| - 1];
    forall p ensures p in chain <==> p in between {
      ContractsAreBetween(env, db, tip, p);
    }
    assert chain == Elements(between);
    forall i, j | 0 <= i < j < |between| ensures between[i] < between[j] {
      HistoryGrows(db, tip, i + 1, j + 1);
    }
    ElementsOfIncreasing(between);
  }

  /** A chain never issues more contracts than its template has ports. */
  lemma AtMostPortsContracts(env: Env, db: Tables, tip: Id)
    requires Lawful(env) && Inv(env, db) && Available(db, tip)
    ensures PreSave(env, db.offers[tip])
    ensures var range := RangeOf(env, db.offers[tip]);
      |ContractsOf(db, Root(db, tip))| <= range.high - range.low + 1
  {
    hide Inv, Root, PreSave, IpPortToStr, IpPortRange, NextAddressIs, Depth, ContractsOf;
    InvIsLinked(env, db);
    ContractsOfChain(env, db, tip);
    var h := History(db, tip);
    ChainShape(env, db, tip);
    HistoryLength(db, tip);
    AllValid(env, db, tip);
    TemplateParses(env, db.offers[tip]);
    if |h| > 2 {
      var p := h[|h| - 2];
      TermsOfRoot(env, db, p);
      TermsOfRoot(env, db, tip);
      PortOfContract(env, db, p);
      DepthOfLink(db, p, tip);
    }
  }

  lemma AllValid(env: Env, db: Tables, id: Id)
    requires Inv(env, db) && id in db.offers
    ensures PreSave(env, db.offers[id])
  {
  }

  lemma DepthOfLink(db: Tables, p: Id, n: Id)
    requires Linked(db) && Succ(db, p, n)
    ensures p in db.offers && Depth(db, n) == Depth(db, p) + 1
  {
  }

  // ---------------------------------------------------------------- when a purchase succeeds

  /** What the buyer has to get right, in terms of the offer requested and the one that is sold. */
  ghost predicate RequestOk(env: Env, db: Tables, r: Request, exact: Id, avail: Id)
    requires exact in db.offers && avail in db.offers
  {
    var o, want, buyer := db.offers[avail], CsvToIntlist(r.profile), env.findAs(r.buyer);
    && r.offer == MessageOf(exact, db.offers[exact])
    && want.Some? && Fits(Values(db, avail), Buy(r.start - o.terms.notbefore, want.value))
    && buyer.Some?
    && BuyerSigned(env, Order(buyer.value.iaid, r.signature, r.profile, r.start), db.offers[exact], r.buyer)
  }

  ghost predicate PortFree(env: Env, db: Tables, avail: Id)
    requires Linked(db) && avail in db.offers && PreSave(env, db.offers[avail])
  {
    RangeOf(env, db.offers[avail]).low + Depth(db, avail) - 1 <= RangeOf(env, db.offers[avail]).high
  }

  lemma PlaceOrderIff(env: Env, db: Tables, r: Request, exact: Id, avail: Id)
    requires exact in db.offers && avail in db.offers && PreSave(env, db.offers[avail])
    ensures PlaceOrder(env, r, exact, db.offers[exact], db.offers[avail]).Ok? <==> RequestOk(env, db, r, exact, avail)
  {
    hide OrderData, CsvToIntlist, IntlistToCsv, Fits, Minus, IaValue, IpPortRange, IsIntListText;
    ValidProfile(env, db.offers[avail]);
  }

  lemma AddressIsAscii(env: Env, ip: Ip, port: int)
    requires Lawful(env)
    ensures IsAscii(IpPortToStr(env.ip6, ip, port))
  {
    hide ShowIp4, ShowInt, IsAscii;
    ShowIntIsAscii(port);
    if ip.V4? {
      Ip4IsAscii(ip);
      OneIsAscii(':');
      AsciiConcat(ShowIp4(ip), ":");
      AsciiConcat(ShowIp4(ip) + ":", ShowInt(port));
    } else {
      var s := env.ip6.show(ip.addr);
      Ip6IsAscii(env, ip.addr);
      OneIsAscii('[');
      OneIsAscii(']');
      OneIsAscii(':');
      AsciiConcat("[", s);
      AsciiConcat("[" + s, "]");
      AsciiConcat("[" + s + "]", ":");
      AsciiConcat("[" + s + "]" + ":", ShowInt(port));
    }
  }

  lemma OneIsAscii(c: char)
    requires c as int < 128
    ensures IsAscii([c])
  {
  }

  lemma Ip4IsAscii(ip: Ip)
    requires ip.V4?
    ensures IsAscii(ShowIp4(ip))
  {
    hide ShowIp4, ParseIp4;
    Ip4RoundTrip(ip);
    assert forall i :: 0 <= i < |ShowIp4(ip)| ==> ShowIp4(ip)[i] in ShowIp4(ip);
  }

  lemma Ip6IsAscii(env: Env, addr: Address6)
    requires Lawful(env)
    ensures IsAscii(env.ip6.show(addr))
  {
    hide BrokerSigns;
    assert Lawful6At(env.ip6, addr);
    var s := env.ip6.show(addr);
    assert forall i :: 0 <= i < |s| ==> s[i] in s;
  }

  /** Drawing the contract of a placed order fails only when the template has no port left. */
  lemma DrawContractIff(env: Env, db: Tables, order: Order, exact: Id, avail: Id, f: Fresh)
    requires Lawful(env) && Inv(env, db) && exact in db.offers && avail in db.offers && !IsOriginal(db, avail)
    requires OrderData(env, order, db.offers[exact]).Some?
    ensures PreSave(env, db.offers[avail]) && LastAddress(db, db.offers[avail]).Ok?
    ensures var last := LastAddress(db, db.offers[avail]).value;
      var drawn := DrawContract(env, order, db.offers[exact], db.offers[avail], last, f);
      (drawn.Ok? <==> PortFree(env, db, avail)) && (drawn.Err? ==> drawn == Err(NoFreePort))
  {
    hide Inv, PreSave, OrderData, LastAddress, BrAddress, IpPortToStr, IpPortRange, Depth;
    NextAddress(env, db, avail);
    TemplateParses(env, db.offers[avail]);
    var range := RangeOf(env, db.offers[avail]);
    InvIsLinked(env, db);
    var port := range.low + Depth(db, avail) - 1;
    AddressIsAscii(env, range.ip, port);
    var address := IpPortToStr(env.ip6, range.ip, port);
    var data := ContractData(env, order, f.now, address, db.offers[exact]);
    assert data.Some?;
    assert BrokerSigns(env, data.value, f.salt1);
  }

  lemma NextOfferOk(env: Env, db: Tables, avail: Id, order: Order, left: string, f: Fresh)
    requires Lawful(env) && Inv(env, db) && avail in db.offers && !IsOriginal(db, avail)
    requires Purchase(db.offers[avail], order.profile, order.start) == Ok(left)
    ensures NextOffer(env, avail, db.offers[avail], left, f).Ok?
    ensures PreSave(env, NextOffer(env, avail, db.offers[avail], left, f).value)
  {
    hide PreSave, Purchase, SoldOk, OriginalOk, OfferText, IsIntListText;
    var o := db.offers[avail];
    assert Succ(db, o.deprecates.value, avail) && LinkOk(env, db, o.deprecates.value, avail);
    PurchaseResult(env, o, order.profile, order.start);
    ProfileIsAscii(left);
    ProfileKeepsAscii(env.fmt, o.terms, o.profile, left);
    var next := NextOffer(env, avail, o, left, f).value;
    SaleKeepsValid(env, o, order.profile, order.start, next.signature, next.deprecates);
  }

  lemma ProfileIsAscii(profile: string)
    requires IsIntListText(profile)
    ensures IsAscii(profile)
  {
    forall i | 0 <= i < |profile| ensures profile[i] as int < 128 {
      JoinChars(Split(profile, ','), ',', profile[i]);
    }
  }

  /**
   * Once an offer is selected and the row id is new, a purchase goes through exactly when the request is
   * right and a port is left; when the request is right the only possible error is the missing port.
   * Validation, uniqueness and the broker's own signature never fail.
   */
  lemma SaleSucceedsIff(env: Env, db: Tables, r: Request, exact: Id, avail: Id, f: Fresh)
    requires Lawful(env) && Inv(env, db) && exact in db.offers && Available(db, avail)
    requires f.first !in db.offers && avail < f.first
    ensures PreSave(env, db.offers[avail])
    ensures SellOffer(env, db, r, exact, avail, f).Ok? <==>
      RequestOk(env, db, r, exact, avail) && PortFree(env, db, avail)
    ensures RequestOk(env, db, r, exact, avail) && !PortFree(env, db, avail) ==>
      SellOffer(env, db, r, exact, avail, f) == Err(NoFreePort)
  {
    hide PreSave, Purchase, LinkOk, SoldOk, PlaceOrder, DrawContract, NextOffer, LastAddress, RequestOk, Depth,
      BuyerSigned, OrderData;
    assert !IsOriginal(db, avail) by {
      NotBothOriginalAndAvailable(env, db, avail);
    }
    PlaceOrderIff(env, db, r, exact, avail);
    if RequestOk(env, db, r, exact, avail) {
      PlacedIsSigned(env, r, exact, db.offers[exact], db.offers[avail]);
      var (order, left) := PlaceOrder(env, r, exact, db.offers[exact], db.offers[avail]).value;
      BuyerSignedData(env, order, db.offers[exact], r.buyer);
      DrawContractIff(env, db, order, exact, avail, f);
      NextOfferOk(env, db, avail, order, left, f);
      assert avail !in db.orders by {
        OrdersDeprecated(env, db, avail);
      }
      NextOfferLink(env, avail, db.offers[avail], left, f);
      if PortFree(env, db, avail) {
        var contract := DrawContract(env, order, db.offers[exact], db.offers[avail],
                                     LastAddress(db, db.offers[avail]).value, f).value;
        assert avail !in db.contracts;
        var db1 := InsertSale(db, avail, order, contract).value;
        assert forall n :: Succ(db1, avail, n) ==> Succ(db, avail, n);
        assert InsertOffer(env, db1, f.first, NextOffer(env, avail, db.offers[avail], left, f).value).Ok?;
      }
    }
  }

  /**
   * With new row ids, AddOffer goes through exactly when the AS is known, signed this offer, and the offer
   * is valid: storing and signing the broker's copy never fails.
   */
  lemma AddSucceedsIff(env: Env, db: Tables, terms: Terms, profile: string, signature: Bytes, f: Fresh)
    requires Linked(db) && f.first !in db.offers && f.second !in db.offers && f.first < f.second
    ensures var original := Offer(terms, profile, signature, None);
      Add(env, db, terms, profile, signature, f).Ok? <==> SellerSigned(env, original) && PreSave(env, original)
  {
    hide OfferBytes, IaValue, IsIntListText, CsvToIntlist, IpPortRange, Tip;
    var original := Offer(terms, profile, signature, None);
    var db1 := db.(offers := db.offers[f.first := original]);
    assert forall n :: !Succ(db1, f.first, n);
  }

  /**
   * `_pre_save` accepts exactly the offers whose profile is a list of non-negative numbers in plain digits that
   * together last from `notbefore` to `notafter`, one period each, with a seller that is an ISD-AS number, an
   * MTU and a link type in range, and a template that parses.
   */
  lemma PreSaveIff(env: Env, o: Offer)
    ensures PreSave(env, o) <==>
      && IsIntListText(o.profile)
      && (exists values :: CsvToIntlist(o.profile) == Some(values) && NonNegative(values) && |values| > 0
            && o.terms.notbefore + |values| * 600_000_000 == o.terms.notafter)
      && IaValue(o.terms.iaid).Some? && |o.terms.iaid| < 256
      && o.terms.mtu >= 100 && o.terms.mtu < 65535 && -0x8000_0000 <= o.terms.qos <= 0x7FFF_FFFF
      && (o.terms.linkTo == "CORE" || o.terms.linkTo == "PARENT" || o.terms.linkTo == "PEER")
      && IpPortRange(env.ip6, o.terms.template).Some?
  {
    hide IaValue, IsIntListText, CsvToIntlist, IpPortRange;
    if IsIntListText(o.profile) {
      ValidTextParses(o.profile);
      var values := CsvToIntlist(o.profile).value;
      assert forall i :: 0 <= i < |values| ==> values[i] in values;
      WholePeriods(Lifespan(o.terms), |values|);
    }
  }

  lemma WholePeriods(span: int, n: nat)
    ensures span % PERIOD == 0 && n == span / PERIOD <==> span == n * PERIOD
  {
  }

  lemma BuyerSignedData(env: Env, order: Order, requested: Offer, name: string)
    requires BuyerSigned(env, order, requested, name)
    ensures OrderData(env, order, requested).Some?
  {
  }

  lemma OrdersDeprecated(env: Env, db: Tables, p: Id)
    requires Inv(env, db)
    ensures p in db.orders ==> Deprecated(db, p)
    ensures p in db.contracts <==> p in db.orders
  {
    hide PreSave, LinkOk, AddressOk, SignedOver, OriginalOk, Linked, Unique;
    assert p in db.orders ==> SoldOk(env, db, p);
    assert p in db.contracts <==> p in db.contracts.Keys;
  }

  lemma NextOfferLink(env: Env, availId: Id, avail: Offer, left: string, f: Fresh)
    requires NextOffer(env, availId, avail, left, f).Ok?
    ensures NextOffer(env, availId, avail, left, f).value.deprecates == Some(availId)
  {
  }

  // ---------------------------------------------------------------- an offer is sold once

  ghost predicate Succeeds(env: Env, log: seq<Entry>, i: nat)
    requires i < |log|
  {
    Exec(env, Replay(env, log[..i]), log[i].call, log[i].drawn).Ok?
  }

  lemma {:induction false} ReplayGrows(env: Env, log: seq<Entry>, i: nat)
    requires Lawful(env) && i <= |log|
    ensures Grows(Replay(env, log[..i]), Replay(env, log))
    decreases |log|
  {
    hide Exec, Inv;
    if i == |log| {
      assert log[..i] == log;
    } else {
      var init := log[..|log| - 1];
      ReplayGrows(env, init, i);
      assert init[..i] == log[..i];
      ReplayKeeps(env, init);
      var before, entry := Replay(env, init), log[|log| - 1];
      if Exec(env, before, entry.call, entry.drawn).Ok? {
        ExecKeeps(env, before, entry.call, entry.drawn);
      }
    }
  }

  /** The offer that a purchase call sells. */
  ghost function Sold(db: Tables, call: Call): Option<Id>
    requires Linked(db)
  {
    if call.AddOffer? || Select(db, call).Err? then None else Some(Select(db, call).value.1)
  }

  /** A purchase that succeeds sells an offer that was available, and leaves it deprecated. */
  lemma SaleDeprecates(env: Env, db: Tables, call: Call, f: Fresh)
    requires Lawful(env) && Linked(db) && !call.AddOffer? && Exec(env, db, call, f).Ok?
    ensures Sold(db, call).Some? && Available(db, Sold(db, call).value)
    ensures Deprecated(Exec(env, db, call, f).value, Sold(db, call).value)
  {
    hide SellOffer, PreSave, BrokerSigned, Purchase, BrAddress, BuyerSigned, ContractSigned, LastAddress, Tip;
    var (exact, avail) := Select(db, call).value;
    var order, contract, next := SaleShape(env, db, call.request, exact, avail, f);
    assert Succ(Exec(env, db, call, f).value, avail, f.first);
  }

  /** In any run, two purchases that succeed, exact or equivalent, sell different offers. */
  lemma SalesDiffer(env: Env, log: seq<Entry>, i: nat, j: nat)
    requires Lawful(env) && i < j < |log| && !log[i].call.AddOffer? && !log[j].call.AddOffer?
    requires Succeeds(env, log, i) && Succeeds(env, log, j)
    ensures Sold(Replay(env, log[..i]), log[i].call).Some?
    ensures Sold(Replay(env, log[..i]), log[i].call) != Sold(Replay(env, log[..j]), log[j].call)
  {
    hide Exec, Inv, Sold, Available;
    var before, after := Replay(env, log[..i]), Replay(env, log[..i + 1]);
    SaleDeprecates(env, before, log[i].call, log[i].drawn);
    SaleDeprecates(env, Replay(env, log[..j]), log[j].call, log[j].drawn);
    assert log[..i + 1][..i] == log[..i];
    ReplayGrows(env, log[..j], i + 1);
    assert log[..j][..i + 1] == log[..i + 1];
    DeprecatedStable(after, Replay(env, log[..j]), Sold(before, log[i].call).value);
    AvailableIsNot(Replay(env, log[..j]), Sold(before, log[i].call).value);
  }

  lemma AvailableIsNot(db: Tables, id: Id)
    requires Deprecated(db, id)
    ensures !Available(db, id)
  {
  }

  /** In any run at most one Purchase of a given offer id succeeds. */
  lemma SoldAtMostOnce(env: Env, log: seq<Entry>, i: nat, j: nat)
    requires Lawful(env) && i < j < |log|
    requires log[i].call.PurchaseExact? && log[j].call.PurchaseExact?
    requires log[i].call.request.offer.id == log[j].call.request.offer.id
    requires Succeeds(env, log, i)
    ensures !Succeeds(env, log, j)
  {
    hide SellOffer, Inv, Replay;
    if Succeeds(env, log, j) {
      SalesDiffer(env, log, i, j);
    }
  }

  // ---------------------------------------------------------------- contracts verify for the client

  function MessageOfContract(order: Order, contract: Contract): ContractMessage {
    ContractMessage(order.buyer, order.profile, TruncSeconds(order.start), order.signature,
                    TruncSeconds(contract.timestamp), contract.brAddress, contract.signature)
  }

  /** The broker's signature verifies over the bytes that the client rebuilds with this offer. */
  ghost predicate VerifiesWith(env: Env, order: Order, contract: Contract, o: Offer) {
    env.verify(env.brokerCert, contract.signature,
               GoContract(env.fmt, MessageOfContract(order, contract), SpecOf(o.terms, o.profile, o.signature)))
  }

  /** A valid offer lasts whole periods, so only its start decides whether both ends see the same seconds. */
  lemma ValidSeconds(env: Env, o: Offer)
    requires PreSave(env, o)
    ensures SameSeconds(o.terms) <==> WholeSecondOrAfterEpoch(o.terms.notbefore)
  {
    hide IaValue, IsIntListText, CsvToIntlist, IpPortRange;
    var t := o.terms;
    WholePeriodsLater(t.notbefore, t.notafter);
  }

  lemma WholePeriodsLater(us: int, us': int)
    requires us <= us' && (us' - us) % PERIOD == 0
    ensures WholeSecondOrAfterEpoch(us) ==> WholeSecondOrAfterEpoch(us')
  {
    var n := (us' - us) / PERIOD;
    assert us' == us + n * PERIOD;
  }

  /** The order bytes that the client signs for its request. */
  function ClientOrder(env: Env, q: Request): Bytes {
    GoOrder(env.fmt, SpecOf(q.offer.terms, q.offer.profile, q.offer.signature), q.buyer, q.profile, FloorSeconds(q.start))
  }

  /**
   * For a request that matches the stored offer and that an offer with the same terms can serve, the client
   * signs the bytes that the service validates exactly when the offer starts at a whole second or not before
   * 1970 and the AS is stored as the client writes it. The end of the offer and the start of the purchase
   * need no condition of their own.
   */
  lemma RequestLayoutsAgree(env: Env, q: Request, exactId: Id, exact: Offer, avail: Offer)
    requires PreSave(env, avail) && exact.terms == avail.terms && q.offer == MessageOf(exactId, exact)
    requires Purchase(avail, q.profile, q.start).Ok? && env.findAs(q.buyer).Some?
    requires OrderData(env, Order(env.findAs(q.buyer).value.iaid, q.signature, q.profile, q.start), exact).Some?
    ensures ClientOrder(env, q)
         == OrderData(env, Order(env.findAs(q.buyer).value.iaid, q.signature, q.profile, q.start), exact).value
      <==> WholeSecondOrAfterEpoch(q.offer.terms.notbefore) && env.findAs(q.buyer).value.iaid == q.buyer
  {
    hide PreSave, Purchase, OfferBytes, OrderBytes, GoOrder, SpecOf, WholeSecondOrAfterEpoch, SameSeconds;
    ValidSeconds(env, avail);
    PurchaseResult(env, avail, q.profile, q.start);
    WholePeriodsLater(exact.terms.notbefore, q.start);
    OrderLayoutsAgree(env.fmt, exact.terms, exact.profile, exact.signature, q.buyer, env.findAs(q.buyer).value.iaid,
                      q.profile, q.start);
  }

  /** The bytes a client builds for an offer whose signature it makes or checks. */
  function ClientOffer(env: Env, o: Offer): Bytes {
    GoOffer(env.fmt, SpecOf(o.terms, o.profile, []))
  }

  /** What the service signs or checks for an offer is what a client builds, exactly for the same seconds. */
  lemma SignedBytesAgree(env: Env, o: Offer)
    ensures SignedBytes(env, o).Some? <==> IsAscii(OfferText(env.fmt, o.terms, o.profile))
    ensures SignedBytes(env, o).Some? ==>
      (ClientOffer(env, o) == SignedBytes(env, o).value <==> SameSeconds(o.terms))
  {
    hide IsAscii, OfferText, GoOffer, SameSeconds, SpecOf;
    if SignedBytes(env, o).Some? {
      OfferLayoutsAgree(env.fmt, o.terms, o.profile, []);
    }
  }

  /**
   * For an offer that starts at a whole second or not before 1970, what decides AddOffer is the seller's
   * signature over the client's bytes of that offer, its profile included.
   */
  lemma AddDecidedBySeller(env: Env, db: Tables, terms: Terms, profile: string, signature: Bytes, f: Fresh)
    requires Linked(db) && f.first !in db.offers && f.second !in db.offers && f.first < f.second
    requires WholeSecondOrAfterEpoch(terms.notbefore)
    ensures var original, seller := Offer(terms, profile, signature, None), env.findAs(terms.iaid);
      Add(env, db, terms, profile, signature, f).Ok? <==>
        && PreSave(env, original) && IsAscii(OfferText(env.fmt, terms, profile))
        && seller.Some? && env.verify(seller.value.cert, signature, ClientOffer(env, original))
  {
    hide Add, PreSave, IsAscii, OfferText, SignedBytes, SameSeconds, WholeSecondOrAfterEpoch, ClientOffer;
    var original := Offer(terms, profile, signature, None);
    AddSucceedsIff(env, db, terms, profile, signature, f);
    SignedBytesAgree(env, original);
    if PreSave(env, original) {
      ValidSeconds(env, original);
    }
  }

  /** Every offer of a chain but the original carries a broker signature that verifies over the client's bytes. */
  lemma OfferVerifiesForClient(env: Env, db: Tables, id: Id)
    requires Inv(env, db) && id in db.offers && !IsOriginal(db, id)
    requires WholeSecondOrAfterEpoch(db.offers[id].terms.notbefore)
    ensures env.verify(env.brokerCert, db.offers[id].signature, ClientOffer(env, db.offers[id]))
  {
    hide PreSave, OfferText, IsAscii, SignedBytes, SameSeconds, WholeSecondOrAfterEpoch, ClientOffer, SoldOk, OriginalOk,
      Purchase;
    var o := db.offers[id];
    assert Succ(db, o.deprecates.value, id) && LinkOk(env, db, o.deprecates.value, id);
    ValidSeconds(env, o);
    SignedBytesAgree(env, o);
  }

  lemma ContractVerifies(env: Env, order: Order, contract: Contract, o: Offer)
    requires PreSave(env, o) && WholeSecondOrAfterEpoch(o.terms.notbefore) && ContractSigned(env, order, contract, o)
    ensures VerifiesWith(env, order, contract, o)
  {
    hide PreSave, OfferBytes, OrderBytes, ContractBytes, GoContract, WholeSecondOrAfterEpoch, SameSeconds, SpecOf;
    ValidSeconds(env, o);
    ContractLayoutsAgree(env.fmt, o.terms, o.profile, o.signature, order.buyer, order.profile, order.start,
                         order.signature, contract.timestamp, contract.brAddress, contract.signature);
  }

  /**
   * Every stored contract has an offer of its chain over which the buyer signed the order, and the broker's
   * signature verifies over the bytes that the Go client rebuilds with that offer.
   */
  lemma ContractVerifiesForClient(env: Env, db: Tables, p: Id) returns (r: Id)
    requires Inv(env, db) && Linked(db) && p in db.orders
    requires p in db.offers ==> WholeSecondOrAfterEpoch(db.offers[p].terms.notbefore)
    ensures p in db.offers && p in db.contracts && r in db.offers && Root(db, r) == Root(db, p)
    ensures exists name :: BuyerSigned(env, db.orders[p], db.offers[r], name)
    ensures VerifiesWith(env, db.orders[p], db.contracts[p], db.offers[r])
  {
    hide Inv, PreSave, BuyerSigned, ContractSigned, VerifiesWith, Root, WholeSecondOrAfterEpoch;
    r := SignedRequest(env, db, p);
    TermsOfRoot(env, db, p);
    TermsOfRoot(env, db, r);
    AllValid(env, db, r);
    ContractVerifies(env, db.orders[p], db.contracts[p], db.offers[r]);
  }

  lemma SignedRequest(env: Env, db: Tables, p: Id) returns (r: Id)
    requires Inv(env, db) && Linked(db) && p in db.orders
    ensures p in db.offers && p in db.contracts && SignedOver(env, db, p, r)
  {
    hide PreSave, LinkOk, OriginalOk, AddressOk, SignedOver;
    assert SoldOk(env, db, p);
    r :| SignedOver(env, db, p, r);
  }

  /** The contract of a sale carries the time of the call and verifies with the very offer that the request carried. */
  lemma SaleVerifiesForBuyer(env: Env, db: Tables, q: Request, exact: Id, avail: Id, f: Fresh)
    requires Lawful(env) && Inv(env, db) && exact in db.offers && Available(db, avail)
    requires SellOffer(env, db, q, exact, avail, f).Ok? && WholeSecondOrAfterEpoch(q.offer.terms.notbefore)
    ensures var db' := SellOffer(env, db, q, exact, avail, f).value;
      && avail in db'.orders && avail in db'.contracts
      && db'.orders[avail].profile == q.profile && db'.orders[avail].start == q.start
      && db'.orders[avail].signature == q.signature && db'.contracts[avail].timestamp == f.now
      && VerifiesWith(env, db'.orders[avail], db'.contracts[avail],
                      Offer(q.offer.terms, q.offer.profile, q.offer.signature, None))
  {
    hide Inv, PreSave, SellOffer, BuyerSigned, ContractSigned, BrokerSigned, BrAddress, Purchase, LastAddress, GoContract,
      WholeSecondOrAfterEpoch;
    SaleIsOfRequest(env, db, q, exact, avail, f);
    AllValid(env, db, exact);
    var order, contract, next := SaleShape(env, db, q, exact, avail, f);
    ContractVerifies(env, order, contract, db.offers[exact]);
  }

  lemma SaleIsOfRequest(env: Env, db: Tables, q: Request, exact: Id, avail: Id, f: Fresh)
    requires exact in db.offers && avail in db.offers && SellOffer(env, db, q, exact, avail, f).Ok?
    ensures q.offer == MessageOf(exact, db.offers[exact])
    ensures var db' := SellOffer(env, db, q, exact, avail, f).value;
      && avail in db'.orders && db'.orders[avail].signature == q.signature
      && avail in db'.contracts && db'.contracts[avail].timestamp == f.now
  {
    hide Purchase, OrderData, ContractData, BrAddress, NextOffer, LastAddress, PreSave;
  }

  /**
   * After any run, the contract of each purchase in it carries the time of that call and still verifies for
   * its buyer: over the bytes rebuilt from the stored order and contract and the offer that the buyer's own request carried.
   */
  lemma BuyersCanVerify(env: Env, log: seq<Entry>, i: nat) returns (p: Id)
    requires Lawful(env) && i < |log| && !log[i].call.AddOffer? && Succeeds(env, log, i)
    requires WholeSecondOrAfterEpoch(log[i].call.request.offer.terms.notbefore)
    ensures Select(Replay(env, log[..i]), log[i].call) == Ok((log[i].call.request.offer.id, p))
    ensures var q, db := log[i].call.request, Replay(env, log);
      && p in db.orders && p in db.contracts
      && db.orders[p].profile == q.profile && db.orders[p].start == q.start && db.orders[p].signature == q.signature
      && db.contracts[p].timestamp == log[i].drawn.now
      && VerifiesWith(env, db.orders[p], db.contracts[p], Offer(q.offer.terms, q.offer.profile, q.offer.signature, None))
  {
    hide Inv, SellOffer, VerifiesWith, WholeSecondOrAfterEpoch, Tip;
    var before, entry := Replay(env, log[..i]), log[i];
    ReplayKeeps(env, log[..i]);
    var picked := Select(before, entry.call).value;
    p := picked.1;
    SaleVerifiesForBuyer(env, before, entry.call.request, picked.0, p, entry.drawn);
    assert log[..i + 1][..i] == log[..i];
    ReplayGrows(env, log, i + 1);
  }
}
