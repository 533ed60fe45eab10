/**
 * The market's tables and what each RPC does to them when it runs alone. Orders and contracts are keyed
 * by the offer they are bound to by their one-to-one columns, so each offer has at most one of them.
 */
module Ledger {
  import opened Outcomes
  import opened Conversion
  import opened Profiles
  import opened Octets
  import opened Signing

  type Id = nat

  datatype Offer = Offer(terms: Terms, profile: string, signature: Bytes, deprecates: Option<Id>)
  datatype Order = Order(buyer: string, signature: Bytes, profile: string, start: int)
  datatype Contract = Contract(timestamp: int, brAddress: string, signature: Bytes)
  datatype Tables = Tables(offers: map<Id, Offer>, orders: map<Id, Order>, contracts: map<Id, Contract>)

  const EMPTY := Tables(map[], map[], map[])

  datatype Cert = Cert(pem: string)
  datatype Key = Key(pem: string)
  datatype As = As(iaid: string, cert: Cert)

  /** What the market relies on: the AS registry, the broker's key pair, signatures and text codecs. */
  datatype Env = Env(
    ip6: Ip6Codec,
    findAs: string -> Option<As>,
    brokerKey: Key,
    brokerCert: Cert,
    sign: (Key, Bytes, nat) -> Bytes,
    verify: (Cert, Bytes, Bytes) -> bool,
    fmt: real -> string)

  ghost predicate BrokerSigns(env: Env, data: Bytes, salt: nat) {
    env.verify(env.brokerCert, env.sign(env.brokerKey, data, salt), data)
  }

  /** The broker's certificate accepts what its key signs, and IPv6 text reads back. */
  ghost predicate Lawful(env: Env) {
    Lawful6(env.ip6) && forall data, salt :: BrokerSigns(env, data, salt)
  }

  datatype Error =
    | NotFound | DerivedSold | NotSame | UnknownAs | BadText | NotContained | BadSignature | NotEncodable
    | BadTemplate | BadAddress | NoFreePort | NoContract | InvalidOffer | Integrity

  // ---------------------------------------------------------------- rows

  function Lifespan(t: Terms): int {
    t.notafter - t.notbefore
  }

  /** `_pre_save`: field validators, whole periods, and one profile value per period. */
  predicate PreSave(env: Env, o: Offer) {
    && IaValue(o.terms.iaid).Some? && |o.terms.iaid| <= 255
    && -0x8000_0000 <= o.terms.qos < 0x8000_0000
    && 100 <= o.terms.mtu <= 65534
    && o.terms.linkTo in ["CORE", "PARENT", "PEER"]
    && IsIntListText(o.profile)
    && o.terms.notbefore <= o.terms.notafter
    && Lifespan(o.terms) % PERIOD == 0
    && (var values := CsvToIntlist(o.profile);
        values.Some? && |values.value| == Lifespan(o.terms) / PERIOD)
    && IpPortRange(env.ip6, o.terms.template).Some?
  }

  /** `Offer.purchase`: the text of the profile that is left, or why the purchase is refused. */
  ghost function Purchase(o: Offer, want: string, start: int): Result<string, Error> {
    var w :- OrErr(CsvToIntlist(want), BadText);
    var have :- OrErr(CsvToIntlist(o.profile), BadText);
    var left :- OrErr(Sell(have, Buy(start - o.terms.notbefore, w)), NotContained);
    Ok(IntlistToCsv(left))
  }

  method OfferPurchase(o: Offer, want: string, start: int) returns (r: Result<string, Error>)
    ensures r == Purchase(o, want, start)
  {
    hide CsvToIntlist, IntlistToCsv, Sell;
    var w := CsvToIntlist(want);
    var have := CsvToIntlist(o.profile);
    if w.None? || have.None? {
      return Err(BadText);
    }
    var left := SubtractProfile(have.value, start - o.terms.notbefore, w.value);
    return if left.None? then Err(NotContained) else Ok(IntlistToCsv(left.value));
  }

  function SignedBytes(env: Env, o: Offer): Option<Bytes> {
    OfferBytes(env.fmt, o.terms, o.profile, [])
  }

  function FullBytes(env: Env, o: Offer): Option<Bytes> {
    OfferBytes(env.fmt, o.terms, o.profile, o.signature)
  }

  /** `sign_with_broker`: the same offer, signed by the broker. */
  function SignWithBroker(env: Env, o: Offer, salt: nat): Result<Offer, Error> {
    var data :- OrErr(SignedBytes(env, o), NotEncodable);
    Ok(o.(signature := env.sign(env.brokerKey, data, salt)))
  }

  function OrderData(env: Env, order: Order, requested: Offer): Option<Bytes> {
    var offer :- FullBytes(env, requested);
    OrderBytes(offer, order.buyer, order.profile, order.start)
  }

  function ContractData(env: Env, order: Order, timestamp: int, brAddress: string, requested: Offer): Option<Bytes> {
    var data :- OrderData(env, order, requested);
    ContractBytes(data, order.signature, timestamp, brAddress)
  }

  // ---------------------------------------------------------------- requests

  /** An offer as ListOffers sends it, and as a purchase request sends it back. */
  datatype OfferMessage = OfferMessage(id: Id, terms: Terms, profile: string, signature: Bytes)

  function MessageOf(id: Id, o: Offer): OfferMessage {
    OfferMessage(id, o.terms, o.profile, o.signature)
  }

  datatype Request = Request(offer: OfferMessage, buyer: string, profile: string, start: int, signature: Bytes)

  datatype Call =
    | AddOffer(terms: Terms, profile: string, signature: Bytes)
    | PurchaseExact(request: Request)
    | PurchaseEquivalent(request: Request)

  /** Values a call draws from outside: row ids, the clock, and signing salts. */
  datatype Fresh = Fresh(first: Id, second: Id, now: int, salt1: nat, salt2: nat)

  /** Finds the buyer, sells from the profile, and validates the order against the requested offer. */
  ghost function PlaceOrder(env: Env, r: Request, exactId: Id, exact: Offer, avail: Offer)
    : Result<(Order, string), Error>
  {
    var _ :- Check(r.offer == MessageOf(exactId, exact), NotSame);
    var buyer :- OrErr(env.findAs(r.buyer), UnknownAs);
    var left :- Purchase(avail, r.profile, r.start);
    var order := Order(buyer.iaid, r.signature, r.profile, r.start);
    var data :- OrErr(OrderData(env, order, exact), NotEncodable);
    var _ :- Check(env.verify(buyer.cert, r.signature, data), BadSignature);
    Ok((order, left))
  }

  /** `find_available_br_address`, given the address of the contract on the deprecated offer, if sold. */
  function BrAddress(env: Env, template: string, last: Option<string>): Result<string, Error> {
    var range :- OrErr(IpPortRange(env.ip6, template), BadTemplate);
    var port :- match last
      case None => Ok(range.low)
      case Some(a) => (var parsed :- OrErr(IpPort(env.ip6, a), BadAddress); Ok(parsed.1 + 1));
    if port > range.high then Err(NoFreePort) else Ok(IpPortToStr(env.ip6, range.ip, port))
  }

  /** The contract of an order, stamped and signed, and validated again before it is returned. */
  function DrawContract(env: Env, order: Order, exact: Offer, avail: Offer, last: Option<string>, f: Fresh)
    : Result<Contract, Error>
  {
    var address :- BrAddress(env, avail.terms.template, last);
    var data :- OrErr(ContractData(env, order, f.now, address, exact), NotEncodable);
    var signature := env.sign(env.brokerKey, data, f.salt1);
    var _ :- Check(env.verify(env.brokerCert, signature, data), BadSignature);
    Ok(Contract(f.now, address, signature))
  }

  /** The offer that replaces a sold one. */
  function NextOffer(env: Env, availId: Id, avail: Offer, left: string, f: Fresh): Result<Offer, Error> {
    SignWithBroker(env, avail.(deprecates := Some(availId), profile := left), f.salt2)
  }

  // ---------------------------------------------------------------- tables

  /** Row ids grow, so an offer deprecates an older one that exists. */
  ghost predicate Linked(db: Tables) {
    forall n :: n in db.offers && db.offers[n].deprecates.Some? ==>
      db.offers[n].deprecates.value < n && db.offers[n].deprecates.value in db.offers
  }

  ghost predicate Succ(db: Tables, p: Id, n: Id) {
    n in db.offers && db.offers[n].deprecates == Some(p)
  }

  ghost predicate Deprecated(db: Tables, p: Id) {
    exists n :: Succ(db, p, n)
  }

  ghost predicate Available(db: Tables, id: Id) {
    id in db.offers && !Deprecated(db, id)
  }

  ghost function Above(db: Tables, id: Id): set<Id> {
    set n | n in db.offers && id < n
  }

  lemma AboveShrinks(db: Tables, id: Id, n: Id)
    requires n in db.offers && id < n
    ensures |Above(db, n)| < |Above(db, id)|
  {
    assert n in Above(db, id) - Above(db, n);
    SubsetCardinality(Above(db, n), Above(db, id), n);
  }

  lemma SubsetCardinality(a: set<Id>, b: set<Id>, x: Id)
    requires a <= b && x in b && x !in a
    ensures |a| < |b|
  {
    assert b == a + (b - a) && a !! (b - a);
    assert x in b - a;
  }

  /** Where the walk of `get_derived` along `deprecated_by` ends. */
  ghost function Tip(db: Tables, id: Id): (tip: Id)
    requires Linked(db) && id in db.offers
    ensures Available(db, tip) && id <= tip
    decreases |Above(db, id)|
  {
    if Deprecated(db, id) then
      var n :| Succ(db, id, n);
      AboveShrinks(db, id, n);
      Tip(db, n)
    else id
  }

  /** `save()` of a new row: validation, the unique column, and the id the database hands out. */
  ghost function InsertOffer(env: Env, db: Tables, id: Id, o: Offer): Result<Tables, Error> {
    if !PreSave(env, o) then Err(InvalidOffer)
    else if o.deprecates.Some? && Deprecated(db, o.deprecates.value) then Err(InvalidOffer)
    else if id in db.offers then Err(Integrity)
    else if o.deprecates.Some? && !(o.deprecates.value in db.offers && o.deprecates.value < id) then Err(Integrity)
    else Ok(db.(offers := db.offers[id := o]))
  }

  ghost function InsertSale(db: Tables, id: Id, order: Order, contract: Contract): Result<Tables, Error> {
    if id in db.orders || id in db.contracts then Err(Integrity)
    else Ok(db.(orders := db.orders[id := order], contracts := db.contracts[id := contract]))
  }

  /** Address on the contract of the offer that `o` deprecates, if that one was sold. */
  function LastAddress(db: Tables, o: Offer): Result<Option<string>, Error> {
    if o.deprecates.Some? && o.deprecates.value in db.orders then
      if o.deprecates.value in db.contracts then Ok(Some(db.contracts[o.deprecates.value].brAddress))
      else Err(NoContract)
    else Ok(None)
  }

  // ---------------------------------------------------------------- the calls

  ghost function Add(env: Env, db: Tables, terms: Terms, profile: string, signature: Bytes, f: Fresh)
    : Result<Tables, Error>
  {
    var original := Offer(terms, profile, signature, None);
    var seller :- OrErr(env.findAs(terms.iaid), UnknownAs);
    var data :- OrErr(SignedBytes(env, original), NotEncodable);
    var _ :- Check(env.verify(seller.cert, signature, data), BadSignature);
    var db1 :- InsertOffer(env, db, f.first, original);
    var copy :- SignWithBroker(env, original.(deprecates := Some(f.first)), f.salt1);
    InsertOffer(env, db1, f.second, copy)
  }

  /** `purchase_offer`: the available offer is sold to the order placed on the requested one. */
  ghost function SellOffer(env: Env, db: Tables, r: Request, exact: Id, avail: Id, f: Fresh): Result<Tables, Error>
    requires exact in db.offers && avail in db.offers
  {
    var placed :- PlaceOrder(env, r, exact, db.offers[exact], db.offers[avail]);
    var last :- LastAddress(db, db.offers[avail]);
    var contract :- DrawContract(env, placed.0, db.offers[exact], db.offers[avail], last, f);
    var db1 :- InsertSale(db, avail, placed.0, contract);
    var next :- NextOffer(env, avail, db.offers[avail], placed.1, f);
    InsertOffer(env, db1, f.first, next)
  }

  /** `get_derived`: the offer asked for and the one at the end of its chain. */
  ghost function Derived(db: Tables, id: Id): Result<(Id, Id), Error>
    requires Linked(db)
  {
    if id !in db.offers then Err(NotFound)
    else
      var tip := Tip(db, id);
      if tip in db.orders then Err(DerivedSold) else Ok((id, tip))
  }

  /** The requested offer, and the one that would be sold for it. */
  ghost function Select(db: Tables, call: Call): Result<(Id, Id), Error>
    requires Linked(db) && !call.AddOffer?
  {
    var id := call.request.offer.id;
    if call.PurchaseExact? then
      if Available(db, id) then Ok((id, id)) else Err(NotFound)
    else Derived(db, id)
  }

  /** One call, run alone on the committed tables. */
  ghost function Exec(env: Env, db: Tables, call: Call, f: Fresh): Result<Tables, Error>
    requires Linked(db)
  {
    match call
    case AddOffer(terms, profile, signature) => Add(env, db, terms, profile, signature, f)
    case PurchaseExact(r) =>
      var (exact, avail) :- Select(db, call);
      SellOffer(env, db, r, exact, avail, f)
    case PurchaseEquivalent(r) =>
      var (exact, avail) :- Select(db, call);
      SellOffer(env, db, r, exact, avail, f)
  }
}
