/** The invariant of the market's tables, kept by every call and so true after every run. */
module LedgerInvariant {
  import opened Outcomes
  import opened Octets
  import opened Signing
  import opened Ledger

  /** An offer as the seller signed it: it deprecates nothing. */
  ghost predicate IsOriginal(db: Tables, id: Id) {
    id in db.offers && db.offers[id].deprecates.None?
  }

  /** The original at the start of an offer's chain. */
  ghost function Root(db: Tables, id: Id): (root: Id)
    requires Linked(db) && id in db.offers
    ensures IsOriginal(db, root) && root <= id
    decreases id
  {
    match db.offers[id].deprecates
    case None => id
    case Some(p) => Root(db, p)
  }

  ghost predicate Unique(db: Tables) {
    forall p, m, n :: Succ(db, p, m) && Succ(db, p, n) ==> m == n
  }

  ghost predicate SellerSigned(env: Env, o: Offer) {
    && env.findAs(o.terms.iaid).Some? && SignedBytes(env, o).Some?
    && env.verify(env.findAs(o.terms.iaid).value.cert, o.signature, SignedBytes(env, o).value)
  }

  ghost predicate BrokerSigned(env: Env, o: Offer) {
    SignedBytes(env, o).Some? && env.verify(env.brokerCert, o.signature, SignedBytes(env, o).value)
  }

  ghost predicate BuyerSigned(env: Env, order: Order, requested: Offer, name: string) {
    && env.findAs(name).Some? && env.findAs(name).value.iaid == order.buyer
    && OrderData(env, order, requested).Some?
    && env.verify(env.findAs(name).value.cert, order.signature, OrderData(env, order, requested).value)
  }

  ghost predicate ContractSigned(env: Env, order: Order, contract: Contract, requested: Offer) {
    var data := ContractData(env, order, contract.timestamp, contract.brAddress, requested);
    data.Some? && env.verify(env.brokerCert, contract.signature, data.value)
  }

  /** Buyer and broker both signed the sale of `p` over the offer `r` the buyer asked for. */
  ghost predicate SignedOver(env: Env, db: Tables, p: Id, r: Id)
    requires Linked(db) && p in db.offers && p in db.orders && p in db.contracts
  {
    && r in db.offers && r <= p && Root(db, r) == Root(db, p)
    && (exists name :: BuyerSigned(env, db.orders[p], db.offers[r], name))
    && ContractSigned(env, db.orders[p], db.contracts[p], db.offers[r])
  }

  ghost predicate OriginalOk(env: Env, db: Tables, id: Id)
    requires id in db.offers
  {
    Deprecated(db, id) && id !in db.orders && SellerSigned(env, db.offers[id])
  }

  /** What one link of a chain says: a signed copy of the original, or what is left after a sale. */
  ghost predicate LinkOk(env: Env, db: Tables, p: Id, n: Id)
    requires p in db.offers && n in db.offers
  {
    && db.offers[n].terms == db.offers[p].terms
    && BrokerSigned(env, db.offers[n])
    && (IsOriginal(db, p) ==> db.offers[n].profile == db.offers[p].profile)
    && (!IsOriginal(db, p) ==>
      p in db.orders &&
      Purchase(db.offers[p], db.orders[p].profile, db.orders[p].start) == Ok(db.offers[n].profile))
  }

  ghost predicate AddressOk(env: Env, db: Tables, p: Id)
    requires p in db.offers && p in db.contracts
  {
    var last := LastAddress(db, db.offers[p]);
    last.Ok? && BrAddress(env, db.offers[p].terms.template, last.value) == Ok(db.contracts[p].brAddress)
  }

  ghost predicate SoldOk(env: Env, db: Tables, p: Id)
    requires Linked(db) && p in db.orders
  {
    && p in db.offers && !IsOriginal(db, p) && Deprecated(db, p) && p in db.contracts
    && AddressOk(env, db, p)
    && exists r :: SignedOver(env, db, p, r)
  }

  ghost predicate Inv(env: Env, db: Tables) {
    && Linked(db) && Unique(db)
    && (forall id :: id in db.offers ==> PreSave(env, db.offers[id]))
    && (forall id :: IsOriginal(db, id) ==> OriginalOk(env, db, id))
    && (forall p, n :: Succ(db, p, n) ==> LinkOk(env, db, p, n))
    && (forall p :: p in db.orders ==> SoldOk(env, db, p))
    && db.contracts.Keys == db.orders.Keys
  }

  lemma InvEmpty(env: Env)
    ensures Inv(env, EMPTY)
  {
  }

  // ---------------------------------------------------------------- growing tables

  /** Rows are only ever added. */
  ghost predicate Grows(a: Tables, b: Tables) {
    && (forall id :: id in a.offers ==> id in b.offers && b.offers[id] == a.offers[id])
    && (forall id :: id in a.orders ==> id in b.orders && b.orders[id] == a.orders[id])
    && (forall id :: id in a.contracts ==> id in b.contracts && b.contracts[id] == a.contracts[id])
  }

  lemma {:induction false} RootStable(a: Tables, b: Tables, id: Id)
    requires Linked(a) && Linked(b) && Grows(a, b) && id in a.offers
    ensures Root(b, id) == Root(a, id)
    decreases id
  {
    if a.offers[id].deprecates.Some? {
      RootStable(a, b, a.offers[id].deprecates.value);
    }
  }

  lemma DeprecatedStable(a: Tables, b: Tables, p: Id)
    requires Grows(a, b) && Deprecated(a, p)
    ensures Deprecated(b, p)
  {
    var n :| Succ(a, p, n);
    assert Succ(b, p, n);
  }

  /** What holds of a sold offer still holds when rows are added and its predecessor stays as it was. */
  lemma SoldStable(env: Env, a: Tables, b: Tables, p: Id)
    requires Linked(a) && Linked(b) && Grows(a, b)
    requires p in a.orders && SoldOk(env, a, p)
    requires forall q :: q in b.orders && q !in a.orders ==> a.offers[p].deprecates != Some(q)
    ensures SoldOk(env, b, p)
  {
    hide Purchase, BrAddress, PreSave, BuyerSigned, ContractSigned;
    DeprecatedStable(a, b, p);
    assert LastAddress(b, b.offers[p]) == LastAddress(a, a.offers[p]);
    var r :| SignedOver(env, a, p, r);
    RootStable(a, b, r);
    RootStable(a, b, p);
    assert SignedOver(env, b, p, r);
  }

  // ---------------------------------------------------------------- AddOffer keeps the invariant

  lemma BrokerSignedAfter(env: Env, o: Offer, salt: nat)
    requires Lawful(env) && SignWithBroker(env, o, salt).Ok?
    ensures BrokerSigned(env, SignWithBroker(env, o, salt).value)
  {
    var data := SignedBytes(env, o).value;
    assert BrokerSigns(env, data, salt);
    assert SignedBytes(env, SignWithBroker(env, o, salt).value) == Some(data);
  }

  /** The rows a successful AddOffer leaves. */
  ghost predicate Added(env: Env, db: Tables, db': Tables, original: Offer, copy: Offer, f: Fresh) {
    && f.first !in db.offers && f.second !in db.offers && f.first < f.second
    && db' == db.(offers := db.offers[f.first := original][f.second := copy])
    && original.deprecates == None && copy.deprecates == Some(f.first)
    && copy.terms == original.terms && copy.profile == original.profile
    && PreSave(env, original) && PreSave(env, copy)
    && SellerSigned(env, original) && BrokerSigned(env, copy)
  }

  lemma AddShape(env: Env, db: Tables, terms: Terms, profile: string, signature: Bytes, f: Fresh)
    returns (original: Offer, copy: Offer)
    requires Lawful(env) && Add(env, db, terms, profile, signature, f).Ok?
    ensures Added(env, db, Add(env, db, terms, profile, signature, f).value, original, copy, f)
    ensures original == Offer(terms, profile, signature, None)
  {
    hide PreSave, OfferBytes;
    original := Offer(terms, profile, signature, None);
    var draft := original.(deprecates := Some(f.first));
    BrokerSignedAfter(env, draft, f.salt1);
    copy := SignWithBroker(env, draft, f.salt1).value;
  }

  lemma AddLinks(env: Env, db: Tables, db': Tables, original: Offer, copy: Offer, f: Fresh, p: Id, n: Id)
    requires Inv(env, db) && Added(env, db, db', original, copy, f) && Succ(db', p, n)
    ensures (p == f.first && n == f.second) || (Succ(db, p, n) && p != f.first)
    ensures LinkOk(env, db', p, n)
  {
    hide PreSave, SellerSigned, BrokerSigned, Purchase, SoldOk, OriginalOk;
    if n != f.second {
      assert Succ(db, p, n) && LinkOk(env, db, p, n);
      assert IsOriginal(db', p) <==> IsOriginal(db, p);
    }
  }

  lemma AddKeeps(env: Env, db: Tables, db': Tables, original: Offer, copy: Offer, f: Fresh)
    requires Inv(env, db) && Added(env, db, db', original, copy, f)
    ensures Inv(env, db') && Grows(db, db')
  {
    hide PreSave, SellerSigned, BrokerSigned, SoldOk, LinkOk;
    assert Linked(db') && Grows(db, db');
    forall p, n | Succ(db', p, n)
      ensures (p == f.first && n == f.second) || (Succ(db, p, n) && p != f.first)
      ensures LinkOk(env, db', p, n)
    {
      AddLinks(env, db, db', original, copy, f, p, n);
    }
    SoldIsStored(env, db, f.first);
    assert Succ(db', f.first, f.second);
    forall id | IsOriginal(db', id) ensures OriginalOk(env, db', id) {
      if id != f.first {
        assert IsOriginal(db, id);
        DeprecatedStable(db, db', id);
      }
    }
    forall p | p in db'.orders ensures SoldOk(env, db', p) {
      SoldStable(env, db, db', p);
    }
  }

  lemma SoldIsStored(env: Env, db: Tables, p: Id)
    requires Inv(env, db)
    ensures p in db.orders ==> p in db.offers
  {
    hide PreSave, LinkOk, OriginalOk, AddressOk, SignedOver;
    assert p in db.orders ==> SoldOk(env, db, p);
  }

  // ---------------------------------------------------------------- a sale keeps the invariant

  /** The rows a successful sale leaves. */
  ghost predicate Sale(env: Env, db: Tables, db': Tables, exact: Id, avail: Id, id: Id,
                       order: Order, contract: Contract, next: Offer) {
    && exact in db.offers && Available(db, avail) && avail !in db.orders && avail !in db.contracts
    && id !in db.offers && avail < id
    && db' == Tables(db.offers[id := next], db.orders[avail := order], db.contracts[avail := contract])
    && next.deprecates == Some(avail) && next.terms == db.offers[avail].terms
    && PreSave(env, next) && BrokerSigned(env, next)
    && Purchase(db.offers[avail], order.profile, order.start) == Ok(next.profile)
    && (var last := LastAddress(db, db.offers[avail]);
        last.Ok? && BrAddress(env, next.terms.template, last.value) == Ok(contract.brAddress))
    && (exists name :: BuyerSigned(env, order, db.offers[exact], name))
    && ContractSigned(env, order, contract, db.offers[exact])
  }

  lemma PlacedIsSigned(env: Env, r: Request, exactId: Id, exact: Offer, avail: Offer)
    requires PlaceOrder(env, r, exactId, exact, avail).Ok?
    ensures var (order, left) := PlaceOrder(env, r, exactId, exact, avail).value;
      && order.profile == r.profile && order.start == r.start
      && Purchase(avail, order.profile, order.start) == Ok(left)
      && BuyerSigned(env, order, exact, r.buyer)
  {
    hide Purchase, OfferBytes, OrderBytes;
  }

  lemma SaleShape(env: Env, db: Tables, r: Request, exact: Id, avail: Id, f: Fresh)
    returns (order: Order, contract: Contract, next: Offer)
    requires Lawful(env) && exact in db.offers && Available(db, avail)
    requires SellOffer(env, db, r, exact, avail, f).Ok?
    ensures Sale(env, db, SellOffer(env, db, r, exact, avail, f).value, exact, avail, f.first, order, contract, next)
    ensures order.profile == r.profile && order.start == r.start
  {
    hide Purchase, PreSave, OfferBytes, OrderBytes, ContractBytes, BuyerSigned, PlaceOrder, BrAddress;
    PlacedIsSigned(env, r, exact, db.offers[exact], db.offers[avail]);
    var placed := PlaceOrder(env, r, exact, db.offers[exact], db.offers[avail]).value;
    order := placed.0;
    contract := DrawContract(env, order, db.offers[exact], db.offers[avail],
                             LastAddress(db, db.offers[avail]).value, f).value;
    var draft := db.offers[avail].(deprecates := Some(avail), profile := placed.1);
    BrokerSignedAfter(env, draft, f.salt2);
    next := SignWithBroker(env, draft, f.salt2).value;
  }

  lemma SaleLinks(env: Env, db: Tables, db': Tables, exact: Id, avail: Id, id: Id,
                  order: Order, contract: Contract, next: Offer, p: Id, n: Id)
    requires Inv(env, db) && Sale(env, db, db', exact, avail, id, order, contract, next)
    requires Succ(db', p, n)
    ensures (p == avail && n == id) || (Succ(db, p, n) && p != avail)
    ensures LinkOk(env, db', p, n)
  {
    hide PreSave, BrokerSigned, Purchase, BrAddress, BuyerSigned, ContractSigned, SoldOk, LastAddress;
    assert avail in db.offers && !IsOriginal(db, avail);
    if n != id {
      assert Succ(db, p, n) && LinkOk(env, db, p, n);
      assert p != avail;
    }
  }

  lemma SaleSold(env: Env, db: Tables, db': Tables, exact: Id, avail: Id, id: Id,
                 order: Order, contract: Contract, next: Offer, p: Id)
    requires Inv(env, db) && Sale(env, db, db', exact, avail, id, order, contract, next)
    requires Root(db, exact) == Root(db, avail) && exact <= avail
    requires Linked(db') && Grows(db, db') && p in db'.orders
    ensures SoldOk(env, db', p)
  {
    hide PreSave, BrokerSigned, Purchase, BrAddress, BuyerSigned, ContractSigned, Root, LinkOk;
    if p == avail {
      assert !IsOriginal(db, avail);
      assert Succ(db', avail, id);
      assert db.offers[avail].deprecates != Some(avail);
      assert LastAddress(db', db'.offers[avail]) == LastAddress(db, db.offers[avail]);
      RootStable(db, db', exact);
      RootStable(db, db', avail);
      assert SignedOver(env, db', avail, exact);
    } else {
      assert !Succ(db, avail, p);
      SoldStable(env, db, db', p);
    }
  }

  lemma SaleKeeps(env: Env, db: Tables, db': Tables, exact: Id, avail: Id, id: Id,
                  order: Order, contract: Contract, next: Offer)
    requires Inv(env, db) && Sale(env, db, db', exact, avail, id, order, contract, next)
    requires Root(db, exact) == Root(db, avail) && exact <= avail
    ensures Inv(env, db') && Grows(db, db')
  {
    hide PreSave, SellerSigned, BrokerSigned, Purchase, BrAddress, BuyerSigned, ContractSigned, Root, LinkOk, SoldOk,
      LastAddress;
    assert Linked(db') && Grows(db, db');
    forall p, n | Succ(db', p, n)
      ensures (p == avail && n == id) || (Succ(db, p, n) && p != avail)
      ensures LinkOk(env, db', p, n)
    {
      SaleLinks(env, db, db', exact, avail, id, order, contract, next, p, n);
    }
    assert avail in db.offers && !IsOriginal(db, avail);
    forall o | IsOriginal(db', o) ensures OriginalOk(env, db', o) {
      assert IsOriginal(db, o);
      DeprecatedStable(db, db', o);
    }
    forall p | p in db'.orders ensures SoldOk(env, db', p) {
      SaleSold(env, db, db', exact, avail, id, order, contract, next, p);
    }
  }

  // ---------------------------------------------------------------- walking to the tip

  /** The walk stays inside the chain it started in. */
  lemma {:induction false} TipRoot(db: Tables, id: Id)
    requires Linked(db) && id in db.offers
    ensures Root(db, Tip(db, id)) == Root(db, id)
    decreases |Above(db, id)|
  {
    if Deprecated(db, id) {
      var n :| Succ(db, id, n) && Tip(db, id) == Tip(db, n);
      AboveShrinks(db, id, n);
      TipRoot(db, n);
    }
  }

  lemma InvIsLinked(env: Env, db: Tables)
    requires Inv(env, db)
    ensures Linked(db) && Unique(db)
  {
  }

  /** Whatever a call does, the tables stay consistent and nothing stored before is changed. */
  lemma ExecKeeps(env: Env, db: Tables, call: Call, f: Fresh)
    requires Lawful(env) && Linked(db) && Inv(env, db) && Exec(env, db, call, f).Ok?
    ensures Inv(env, Exec(env, db, call, f).value) && Grows(db, Exec(env, db, call, f).value)
  {
    hide Add, SellOffer, Inv, Tip, Root, Sale, Added, Grows;
    var db' := Exec(env, db, call, f).value;
    match call {
      case AddOffer(terms, profile, signature) =>
        var original, copy := AddShape(env, db, terms, profile, signature, f);
        AddKeeps(env, db, db', original, copy, f);
      case PurchaseExact(r) =>
        var id := r.offer.id;
        var order, contract, next := SaleShape(env, db, r, id, id, f);
        SaleKeeps(env, db, db', id, id, f.first, order, contract, next);
      case PurchaseEquivalent(r) =>
        var id := r.offer.id;
        var tip := Tip(db, id);
        TipRoot(db, id);
        var order, contract, next := SaleShape(env, db, r, id, tip, f);
        SaleKeeps(env, db, db', id, tip, f.first, order, contract, next);
    }
  }
}
