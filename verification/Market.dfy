/** The market service itself: tables updated in place, each call all or nothing. */
module Market {
  import opened Outcomes
  import opened Octets
  import opened Signing
  import opened Ledger
  import opened LedgerInvariant
  import LedgerTheorems

  class MarketService {
    const env: Env
    var offers: map<Id, Offer>
    var orders: map<Id, Order>
    var contracts: map<Id, Contract>

    ghost function Db(): Tables
      reads this
    {
      Tables(offers, orders, contracts)
    }

    /** The tables satisfy the invariant and the broker's key matches its certificate. */
    ghost predicate Valid()
      reads this
    {
      Lawful(env) && Inv(env, Db())
    }

    constructor (env: Env)
      requires Lawful(env)
      ensures Valid() && Db() == EMPTY && this.env == env
    {
      this.env := env;
      offers, orders, contracts := map[], map[], map[];
    }

    /** The reverse side of the `deprecates` column. */
    method DeprecatedBy(id: Id) returns (n: Option<Id>)
      ensures n.None? <==> !Deprecated(Db(), id)
      ensures n.Some? ==> Succ(Db(), id, n.value)
    {
      if exists k :: k in offers && offers[k].deprecates == Some(id) {
        var k :| k in offers && offers[k].deprecates == Some(id);
        assert Succ(Db(), id, k);
        return Some(k);
      }
      assert forall k :: !Succ(Db(), id, k);
      return None;
    }

    /** Walks along `deprecated_by` until an offer is available. */
    method GetDerived(id: Id) returns (r: Result<(Id, Id), Error>)
      requires Linked(Db()) && Unique(Db())
      ensures r == Derived(Db(), id)
    {
      if id !in offers {
        return Err(NotFound);
      }
      var avail := id;
      var next := DeprecatedBy(avail);
      while next.Some?
        invariant avail in offers && Tip(Db(), avail) == Tip(Db(), id)
        invariant next.None? <==> !Deprecated(Db(), avail)
        invariant next.Some? ==> Succ(Db(), avail, next.value)
        decreases |Above(Db(), avail)|
      {
        LedgerTheorems.TipOfLink(Db(), avail, next.value);
        AboveShrinks(Db(), avail, next.value);
        avail := next.value;
        next := DeprecatedBy(avail);
      }
      return if avail in orders then Err(DerivedSold) else Ok((id, avail));
    }

    /** `save()` of a new offer row. */
    method SaveOffer(id: Id, o: Offer) returns (r: Result<(), Error>)
      modifies this`offers
      ensures match InsertOffer(env, old(Db()), id, o)
        case Ok(db) => r == Ok(()) && Db() == db
        case Err(e) => r == Err(e) && Db() == old(Db())
    {
      hide PreSave;
      if !PreSave(env, o) {
        return Err(InvalidOffer);
      }
      if o.deprecates.Some? {
        var other := DeprecatedBy(o.deprecates.value);
        if other.Some? {
          return Err(InvalidOffer);
        }
        if o.deprecates.value !in offers || o.deprecates.value >= id {
          return Err(Integrity);
        }
      }
      if id in offers {
        return Err(Integrity);
      }
      offers := offers[id := o];
      return Ok(());
    }

    method AddOffer(terms: Terms, profile: string, signature: Bytes, f: Fresh) returns (r: Result<OfferMessage, Error>)
      requires Valid()
      modifies this
      ensures Valid()
      ensures match Exec(env, old(Db()), Call.AddOffer(terms, profile, signature), f)
        case Ok(db) => r.Ok? && Db() == db && f.second in db.offers && r.value == MessageOf(f.second, db.offers[f.second])
        case Err(e) => r == Err(e) && Db() == old(Db())
    {
      ghost var call := Call.AddOffer(terms, profile, signature);
      ghost var before := Db();
      if Exec(env, before, call, f).Ok? {
        ExecKeeps(env, before, call, f);
      }
      var saved := offers;
      r := AddInTransaction(terms, profile, signature, f);
      if r.Err? {
        offers := saved;
      }
    }

    /** The body of the transaction; the caller undoes a partial one. */
    method AddInTransaction(terms: Terms, profile: string, signature: Bytes, f: Fresh)
      returns (r: Result<OfferMessage, Error>)
      modifies this`offers
      ensures match Add(env, old(Db()), terms, profile, signature, f)
        case Ok(db) => r.Ok? && Db() == db && f.second in db.offers && r.value == MessageOf(f.second, db.offers[f.second])
        case Err(e) => r == Err(e)
    {
      hide PreSave, SignedBytes;
      var offer := Offer(terms, profile, signature, None);
      var seller := env.findAs(terms.iaid);
      if seller.None? {
        return Err(UnknownAs);
      }
      var data := SignedBytes(env, offer);
      if data.None? {
        return Err(NotEncodable);
      }
      if !env.verify(seller.value.cert, signature, data.value) {
        return Err(BadSignature);
      }
      var stored := SaveOffer(f.first, offer);
      if stored.Err? {
        return Err(stored.error);
      }
      var copy := SignWithBroker(env, offer.(deprecates := Some(f.first)), f.salt1);
      if copy.Err? {
        return Err(copy.error);
      }
      stored := SaveOffer(f.second, copy.value);
      if stored.Err? {
        return Err(stored.error);
      }
      return Ok(MessageOf(f.second, copy.value));
    }

    /** `purchase_offer` inside the transaction: order, contract and new offer in turn. */
    method PurchaseOffer(q: Request, exact: Id, avail: Id, f: Fresh) returns (r: Result<Contract, Error>)
      requires exact in offers && avail in offers
      modifies this
      ensures match SellOffer(env, old(Db()), q, exact, avail, f)
        case Ok(db) => r.Ok? && Db() == db && avail in db.contracts && r.value == db.contracts[avail]
        case Err(e) => r == Err(e)
    {
      hide PreSave, FullBytes, SignedBytes, OrderData, ContractData, Ledger.Purchase;
      var requested, available := offers[exact], offers[avail];
      if q.offer != MessageOf(exact, requested) {
        return Err(NotSame);
      }
      var buyer := env.findAs(q.buyer);
      if buyer.None? {
        return Err(UnknownAs);
      }
      var left := OfferPurchase(available, q.profile, q.start);
      if left.Err? {
        return Err(left.error);
      }
      var order := Order(buyer.value.iaid, q.signature, q.profile, q.start);
      var data := OrderData(env, order, requested);
      if data.None? {
        return Err(NotEncodable);
      }
      if !env.verify(buyer.value.cert, q.signature, data.value) {
        return Err(BadSignature);
      }
      assert PlaceOrder(env, q, exact, requested, available) == Ok((order, left.value));
      var last := LastAddress(Tables(offers, orders, contracts), available);
      if last.Err? {
        return Err(last.error);
      }
      var contract := DrawContract(env, order, requested, available, last.value, f);
      if contract.Err? {
        return Err(contract.error);
      }
      if avail in orders || avail in contracts {
        return Err(Integrity);
      }
      orders := orders[avail := order];
      contracts := contracts[avail := contract.value];
      var next := NextOffer(env, avail, available, left.value, f);
      if next.Err? {
        return Err(next.error);
      }
      var stored := SaveOffer(f.first, next.value);
      if stored.Err? {
        return Err(stored.error);
      }
      return Ok(contract.value);
    }

    /** Runs the sale in a transaction: whatever an error left behind is undone. */
    method SellInTransaction(q: Request, exact: Id, avail: Id, f: Fresh) returns (r: Result<Contract, Error>)
      requires exact in offers && avail in offers
      modifies this
      ensures match SellOffer(env, old(Db()), q, exact, avail, f)
        case Ok(db) => r.Ok? && Db() == db && avail in db.contracts && r.value == db.contracts[avail]
        case Err(e) => r == Err(e) && Db() == old(Db())
    {
      var savedOffers, savedOrders, savedContracts := offers, orders, contracts;
      r := PurchaseOffer(q, exact, avail, f);
      if r.Err? {
        offers, orders, contracts := savedOffers, savedOrders, savedContracts;
      }
    }

    /** Sells exactly the offer asked for. */
    method Purchase(q: Request, f: Fresh) returns (r: Result<Contract, Error>)
      requires Valid()
      modifies this
      ensures Valid()
      ensures match Exec(env, old(Db()), PurchaseExact(q), f)
        case Ok(db) => r.Ok? && Db() == db && q.offer.id in db.contracts && r.value == db.contracts[q.offer.id]
        case Err(e) => r == Err(e) && Db() == old(Db())
    {
      hide SellOffer, PreSave, LinkOk, SoldOk, OriginalOk;
      ghost var before := Db();
      if Exec(env, before, PurchaseExact(q), f).Ok? {
        ExecKeeps(env, before, PurchaseExact(q), f);
      }
      var id := q.offer.id;
      var newer := DeprecatedBy(id);
      if id !in offers || newer.Some? {
        return Err(NotFound);
      }
      r := SellInTransaction(q, id, id, f);
    }

    /** Sells whatever is available now in the chain of the offer asked for. */
    method PurchaseEquivalent(q: Request, f: Fresh) returns (r: Result<Contract, Error>)
      requires Valid()
      modifies this
      ensures Valid()
      ensures match Exec(env, old(Db()), Call.PurchaseEquivalent(q), f)
        case Ok(db) =>
          var tip := Tip(old(Db()), q.offer.id);
          r.Ok? && Db() == db && tip in db.contracts && r.value == db.contracts[tip]
        case Err(e) => r == Err(e) && Db() == old(Db())
    {
      hide SellOffer, PreSave, LinkOk, SoldOk, OriginalOk;
      ghost var before := Db();
      if Exec(env, before, Call.PurchaseEquivalent(q), f).Ok? {
        ExecKeeps(env, before, Call.PurchaseEquivalent(q), f);
      }
      var picked := GetDerived(q.offer.id);
      if picked.Err? {
        return Err(picked.error);
      }
      r := SellInTransaction(q, picked.value.0, picked.value.1, f);
    }
  }
}
