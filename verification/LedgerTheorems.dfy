/** What the invariant gives: conservation, the shape of chains, ports, lookups and signatures. */
module LedgerTheorems {
  import opened Outcomes
  import opened Conversion
  import opened Profiles
  import opened Octets
  import opened Signing
  import opened Ledger
  import opened LedgerInvariant

  // ---------------------------------------------------------------- runs

  datatype Entry = Entry(call: Call, drawn: Fresh)

  lemma ExecLinked(env: Env, db: Tables, call: Call, f: Fresh)
    requires Linked(db) && Exec(env, db, call, f).Ok?
    ensures Linked(Exec(env, db, call, f).value)
  {
    hide PreSave, PlaceOrder, DrawContract, SignedBytes, LastAddress, NextOffer, SignWithBroker, Select;
  }

  /** The tables after a log of calls, run one after another; a failed call leaves them as they were. */
  ghost function Replay(env: Env, log: seq<Entry>): (db: Tables)
    ensures Linked(db)
  {
    if |log| == 0 then EMPTY
    else
      var before := Replay(env, log[..|log| - 1]);
      var entry := log[|log| - 1];
      match Exec(env, before, entry.call, entry.drawn)
      case Err(_) => before
      case Ok(after) =>
        ExecLinked(env, before, entry.call, entry.drawn);
        after
  }

  /** After every run, of any calls, the invariant holds. */
  lemma {:induction false} ReplayKeeps(env: Env, log: seq<Entry>)
    requires Lawful(env)
    ensures Inv(env, Replay(env, log))
  {
    hide Exec, Inv;
    if |log| == 0 {
      InvEmpty(env);
    } else {
      ReplayKeeps(env, log[..|log| - 1]);
      var before := Replay(env, log[..|log| - 1]);
      var entry := log[|log| - 1];
      if Exec(env, before, entry.call, entry.drawn).Ok? {
        ExecKeeps(env, before, entry.call, entry.drawn);
      }
    }
  }

  // ---------------------------------------------------------------- one sale

  function Values(db: Tables, id: Id): seq<int>
    requires id in db.offers
  {
    var values := CsvToIntlist(db.offers[id].profile);
    if values.Some? then values.value else []
  }

  /** The purchase behind an order, relative to the start of the offer it bought from. */
  function BuyOf(db: Tables, p: Id): Buy
    requires p in db.offers && p in db.orders
  {
    var want := CsvToIntlist(db.orders[p].profile);
    Buy(db.orders[p].start - db.offers[p].terms.notbefore, if want.Some? then want.value else [])
  }

  lemma ValidProfile(env: Env, o: Offer)
    requires PreSave(env, o)
    ensures CsvToIntlist(o.profile).Some? && |CsvToIntlist(o.profile).value| > 0
    ensures NonNegative(CsvToIntlist(o.profile).value)
  {
    hide CsvToIntlist, IsIntListText, IaValue, IpPortRange;
    ValidTextParses(o.profile);
    var values := CsvToIntlist(o.profile).value;
    assert forall i :: 0 <= i < |values| ==> values[i] in values;
  }

  /** A purchase that is not refused fits, and the text it returns parses to what is left. */
  lemma PurchaseResult(env: Env, o: Offer, want: string, start: int)
    requires PreSave(env, o) && Purchase(o, want, start).Ok?
    ensures CsvToIntlist(want).Some?
    ensures var b := Buy(start - o.terms.notbefore, CsvToIntlist(want).value);
      var have := CsvToIntlist(o.profile).value;
      var left := Purchase(o, want, start).value;
      Fits(have, b) && CsvToIntlist(left) == Some(Minus(have, b)) && IsIntListText(left)
  {
    hide CsvToIntlist, IntlistToCsv, IsIntListText, Fits, Demand, NonNegative, PreSave;
    ValidProfile(env, o);
    var b := Buy(start - o.terms.notbefore, CsvToIntlist(want).value);
    var have := CsvToIntlist(o.profile).value;
    FitsPointwise(have, b);
    PrintedProfile(Minus(have, b));
  }

  lemma PrintedProfile(values: seq<int>)
    requires |values| > 0 && NonNegative(values)
    ensures CsvToIntlist(IntlistToCsv(values)) == Some(values) && IsIntListText(IntlistToCsv(values))
  {
    hide CsvToIntlist, IntlistToCsv, IsIntListText;
    CsvRoundTrip(values);
    CsvTextOfValues(values);
    assert forall v <- values :: v >= 0;
  }

  /** A sale turns a valid offer into a valid offer. */
  lemma SaleKeepsValid(env: Env, o: Offer, want: string, start: int, signature: Bytes, link: Option<Id>)
    requires PreSave(env, o) && Purchase(o, want, start).Ok?
    ensures PreSave(env, Offer(o.terms, Purchase(o, want, start).value, signature, link))
  {
    hide CsvToIntlist, IntlistToCsv, IsIntListText, Fits, IaValue, IpPortRange, Purchase;
    PurchaseResult(env, o, want, start);
  }

  // ---------------------------------------------------------------- purchases in any order

  datatype Want = Want(profile: string, start: int)

  /** Purchases from the text of a profile, one after another, all or nothing. */
  ghost function PurchaseAll(o: Offer, ws: seq<Want>): Result<string, Error>
    decreases |ws|
  {
    if |ws| == 0 then Ok(o.profile)
    else
      var left :- Purchase(o, ws[0].profile, ws[0].start);
      PurchaseAll(o.(profile := left), ws[1..])
  }

  predicate AllParse(ws: seq<Want>) {
    forall w <- ws :: CsvToIntlist(w.profile).Some?
  }

  function BuyAt(notbefore: int, w: Want): Buy {
    var want := CsvToIntlist(w.profile);
    Buy(w.start - notbefore, if want.Some? then want.value else [])
  }

  function Buys(notbefore: int, ws: seq<Want>): seq<Buy> {
    seq(|ws|, i requires 0 <= i < |ws| => BuyAt(notbefore, ws[i]))
  }

  /** Purchases from text are purchases from the numbers it stands for, printed again. */
  lemma {:induction false} PurchaseAllIs(env: Env, o: Offer, ws: seq<Want>)
    requires PreSave(env, o) && |ws| > 0
    ensures CsvToIntlist(o.profile).Some?
    ensures var sold := SellAll(CsvToIntlist(o.profile).value, Buys(o.terms.notbefore, ws));
      && (PurchaseAll(o, ws).Ok? <==> AllParse(ws) && sold.Some?)
      && (PurchaseAll(o, ws).Ok? ==> PurchaseAll(o, ws).value == IntlistToCsv(sold.value))
    decreases |ws|
  {
    hide PreSave, CsvToIntlist, IntlistToCsv, Fits, Minus, IsIntListText;
    ValidProfile(env, o);
    var w, rest, notbefore := ws[0], ws[1..], o.terms.notbefore;
    assert ws == [w] + rest;
    assert Buys(notbefore, ws)[1..] == Buys(notbefore, rest) && Buys(notbefore, ws)[0] == BuyAt(notbefore, w);
    var first := Purchase(o, w.profile, w.start);
    if first.Ok? {
      PurchaseResult(env, o, w.profile, w.start);
      SaleKeepsValid(env, o, w.profile, w.start, o.signature, o.deprecates);
      if |rest| > 0 {
        PurchaseAllIs(env, o.(profile := first.value), rest);
      }
    }
  }

  lemma {:induction false} BuysPermute(notbefore: int, ws: seq<Want>, vs: seq<Want>)
    requires multiset(ws) == multiset(vs)
    ensures multiset(Buys(notbefore, ws)) == multiset(Buys(notbefore, vs))
    decreases |ws|
  {
    hide BuyAt;
    assert |ws| == |multiset(ws)| == |multiset(vs)| == |vs|;
    if |ws| > 0 {
      var i := FirstIn(ws, vs);
      var bs, cs := Buys(notbefore, ws), Buys(notbefore, vs);
      BuysPermute(notbefore, ws[1..], vs[..i] + vs[i + 1..]);
      assert bs[..0] + bs[1..] == Buys(notbefore, ws[1..]);
      assert cs[..i] + cs[i + 1..] == Buys(notbefore, vs[..i] + vs[i + 1..]);
      TakenOut(bs, 0);
      TakenOut(cs, i);
      SameAfterTaking(bs, cs, bs[0], Buys(notbefore, ws[1..]), Buys(notbefore, vs[..i] + vs[i + 1..]));
    }
  }

  lemma SameAfterTaking(bs: seq<Buy>, cs: seq<Buy>, b: Buy, bs': seq<Buy>, cs': seq<Buy>)
    requires b in bs && b in cs && multiset(bs') == multiset(cs')
    requires multiset(bs') == multiset(bs) - multiset{b} && multiset(cs') == multiset(cs) - multiset{b}
    ensures multiset(bs) == multiset(cs)
  {
    assert b in multiset(bs) && b in multiset(cs);
    assert multiset(bs) == multiset(bs') + multiset{b} && multiset(cs) == multiset(cs') + multiset{b};
  }

  /** Purchases from an offer, in any other order, succeed or fail together and leave the same text. */
  lemma PurchaseOrderIndependence(env: Env, o: Offer, ws: seq<Want>, vs: seq<Want>)
    requires PreSave(env, o) && multiset(ws) == multiset(vs)
    ensures PurchaseAll(o, ws).Ok? <==> PurchaseAll(o, vs).Ok?
    ensures PurchaseAll(o, ws).Ok? ==> PurchaseAll(o, ws) == PurchaseAll(o, vs)
  {
    hide PreSave, CsvToIntlist, IntlistToCsv, Buys, SellAll, PurchaseAll;
    assert |ws| == |multiset(ws)| == |multiset(vs)| == |vs|;
    if |ws| == 0 {
      assert ws == vs;
    } else {
      ValidProfile(env, o);
      PurchaseAllIs(env, o, ws);
      PurchaseAllIs(env, o, vs);
      BuysPermute(o.terms.notbefore, ws, vs);
      OrderIndependence(CsvToIntlist(o.profile).value, Buys(o.terms.notbefore, ws), Buys(o.terms.notbefore, vs));
      assert forall w :: w in ws <==> w in multiset(ws);
      assert forall w :: w in vs <==> w in multiset(vs);
    }
  }

  /** Every order lies inside the offer it bought from, on a period boundary, and buys something. */
  lemma OrdersInWindow(env: Env, db: Tables, p: Id)
    requires Inv(env, db) && p in db.orders
    ensures p in db.offers
    ensures var b, t := BuyOf(db, p), db.offers[p].terms;
      && b.offset % PERIOD == 0 && t.notbefore <= db.orders[p].start
      && db.orders[p].start + |b.want| * PERIOD <= t.notafter
      && Fits(Values(db, p), b)
  {
    hide AddressOk, SignedOver, BrokerSigned, CsvToIntlist, IsIntListText, IaValue, IpPortRange, Purchase;
    assert SoldOk(env, db, p);
    var n :| Succ(db, p, n);
    assert LinkOk(env, db, p, n);
    ValidProfile(env, db.offers[p]);
    PurchaseResult(env, db.offers[p], db.orders[p].profile, db.orders[p].start);
    WindowEnds(db.offers[p].terms, BuyOf(db, p), db.orders[p].start, |Values(db, p)|);
  }

  /** Every order buys something in some period. */
  lemma OrdersBuySomething(env: Env, db: Tables, p: Id) returns (t: nat)
    requires Inv(env, db) && p in db.orders
    ensures p in db.offers && t < |Values(db, p)| && 0 < Demand(BuyOf(db, p), t) <= Values(db, p)[t]
  {
    hide Inv, Values, BuyOf;
    OrdersInWindow(env, db, p);
    var b := BuyOf(db, p);
    var i :| 0 <= i < |b.want| && b.want[i] > 0;
    t := b.offset / PERIOD + i;
  }

  /**
   * What an order takes from a period of the offer is what its profile asks for at the time that period
   * starts: period `t` of the offer starts at `notbefore` plus `t` times 600 seconds, entry `i` of the order at its
   * start plus `i` periods, and where no entry starts it takes nothing.
   */
  lemma DemandAtTime(env: Env, db: Tables, p: Id, t: nat)
    requires Inv(env, db) && p in db.orders
    ensures p in db.offers && CsvToIntlist(db.orders[p].profile).Some?
    ensures var want, time := CsvToIntlist(db.orders[p].profile).value, db.offers[p].terms.notbefore + t * 600_000_000;
      && (forall i :: 0 <= i < |want| && db.orders[p].start + i * 600_000_000 == time ==> Demand(BuyOf(db, p), t) == want[i])
      && ((forall i :: 0 <= i < |want| ==> db.orders[p].start + i * 600_000_000 != time) ==> Demand(BuyOf(db, p), t) == 0)
  {
    hide Inv, Values, CsvToIntlist;
    OrdersInWindow(env, db, p);
    OrderParses(env, db, p);
    var b, want := BuyOf(db, p), CsvToIntlist(db.orders[p].profile).value;
    var k := b.offset / PERIOD;
    assert b.offset == k * PERIOD;
    forall i | 0 <= i < |want|
      ensures db.orders[p].start + i * PERIOD == db.offers[p].terms.notbefore + t * PERIOD <==> k + i == t
    {
    }
    if k <= t < k + |want| {
      var i := t - k;
      assert db.orders[p].start + i * PERIOD == db.offers[p].terms.notbefore + t * PERIOD;
    }
  }

  lemma OrderParses(env: Env, db: Tables, p: Id)
    requires Inv(env, db) && p in db.orders
    ensures CsvToIntlist(db.orders[p].profile).Some?
  {
    hide PreSave, SignedOver, AddressOk, CsvToIntlist, IntlistToCsv, OriginalOk, BrokerSigned, Sell;
    assert SoldOk(env, db, p);
    var n :| Succ(db, p, n);
    assert LinkOk(env, db, p, n);
  }

  lemma WindowEnds(t: Terms, b: Buy, start: int, n: nat)
    requires b.offset == start - t.notbefore && b.offset >= 0 && b.offset % PERIOD == 0
    requires b.offset / PERIOD + |b.want| <= n
    requires Lifespan(t) % PERIOD == 0 && n == Lifespan(t) / PERIOD
    ensures start + |b.want| * PERIOD <= t.notafter
  {
    var k := b.offset / PERIOD;
    assert b.offset == k * PERIOD && Lifespan(t) == n * PERIOD;
    assert (k + |b.want|) * PERIOD <= n * PERIOD;
  }

  // ---------------------------------------------------------------- conservation

  /** The offers from the original of a chain up to `id`. */
  ghost function History(db: Tables, id: Id): (h: seq<Id>)
    requires Linked(db) && id in db.offers
    ensures |h| > 0 && h[|h| - 1] == id && h[0] == Root(db, id)
    ensures forall i :: 0 <= i < |h| ==> h[i] in db.offers && Root(db, h[i]) == Root(db, id)
    ensures forall i :: 0 <= i < |h| - 1 ==> Succ(db, h[i], h[i + 1])
    decreases id
  {
    match db.offers[id].deprecates
    case None => [id]
    case Some(p) => History(db, p) + [id]
  }

  /** Bandwidth that the orders on these offers took in period `t`. */
  ghost function Bought(db: Tables, h: seq<Id>, t: int): int
    requires forall i :: 0 <= i < |h| ==> h[i] in db.offers
  {
    if |h| == 0 then 0
    else
      var p := h[|h| - 1];
      Bought(db, h[..|h| - 1], t) + (if p in db.orders then Demand(BuyOf(db, p), t) else 0)
  }

  lemma LinkValues(env: Env, db: Tables, p: Id, n: Id, t: nat)
    requires Inv(env, db) && Succ(db, p, n)
    ensures p in db.offers && |Values(db, n)| == |Values(db, p)| > 0
    ensures NonNegative(Values(db, p)) && NonNegative(Values(db, n))
    ensures p in db.orders ==> Demand(BuyOf(db, p), t) >= 0
    ensures t < |Values(db, p)| ==>
      Values(db, p)[t] == Values(db, n)[t] + if p in db.orders then Demand(BuyOf(db, p), t) else 0
  {
    hide SoldOk, BrokerSigned, SellerSigned, CsvToIntlist, PreSave, Purchase;
    assert LinkOk(env, db, p, n);
    assert IsOriginal(db, p) ==> OriginalOk(env, db, p);
    ValidProfile(env, db.offers[p]);
    ValidProfile(env, db.offers[n]);
    if !IsOriginal(db, p) {
      PurchaseResult(env, db.offers[p], db.orders[p].profile, db.orders[p].start);
      DemandBounds(|Values(db, p)|, BuyOf(db, p), t);
    }
  }

  /**
   * In every period, what the original offered is what an offer of its chain still has plus everything
   * the orders before that offer bought, and none of these is negative.
   */
  lemma {:induction false} Conservation(env: Env, db: Tables, id: Id, t: nat)
    requires Inv(env, db) && id in db.offers && t < |Values(db, Root(db, id))|
    ensures |Values(db, id)| == |Values(db, Root(db, id))|
    ensures var sold := Bought(db, History(db, id)[..|History(db, id)| - 1], t);
      sold >= 0 && Values(db, id)[t] >= 0 && Values(db, Root(db, id))[t] == Values(db, id)[t] + sold
    decreases id
  {
    hide LinkOk, SoldOk, OriginalOk, PreSave, Demand, BuyOf, Values;
    var h := History(db, id);
    match db.offers[id].deprecates {
      case None =>
        ValidProfile(env, db.offers[id]);
        ValuesNonNegative(env, db, id);
      case Some(p) =>
        assert Succ(db, p, id);
        Conservation(env, db, p, t);
        LinkValues(env, db, p, id, t);
        assert h[..|h| - 1] == History(db, p);
    }
  }

  lemma ValuesNonNegative(env: Env, db: Tables, id: Id)
    requires Inv(env, db) && id in db.offers
    ensures NonNegative(Values(db, id))
  {
    hide LinkOk, SoldOk, OriginalOk;
    ValidProfile(env, db.offers[id]);
  }

  // ---------------------------------------------------------------- the shape of chains

  lemma {:induction false} TipOfLink(db: Tables, p: Id, n: Id)
    requires Linked(db) && Unique(db) && Succ(db, p, n)
    ensures p in db.offers && Tip(db, p) == Tip(db, n)
  {
    assert Deprecated(db, p);
    var m :| Succ(db, p, m) && Tip(db, p) == Tip(db, m);
    assert m == n;
  }

  /** Walking from the original or from any later offer ends at the same tip. */
  lemma {:induction false} TipOfRoot(db: Tables, id: Id)
    requires Linked(db) && Unique(db) && id in db.offers
    ensures Tip(db, Root(db, id)) == Tip(db, id)
    decreases id
  {
    if db.offers[id].deprecates.Some? {
      var p := db.offers[id].deprecates.value;
      assert Succ(db, p, id);
      TipOfLink(db, p, id);
      TipOfRoot(db, p);
    }
  }

  /** Each chain has exactly one available offer. */
  lemma OneTip(db: Tables, a: Id, b: Id)
    requires Linked(db) && Unique(db)
    requires Available(db, a) && Available(db, b) && Root(db, a) == Root(db, b)
    ensures a == b
  {
    TipOfRoot(db, a);
    TipOfRoot(db, b);
  }

  /** Everything that starts at the same original lies on the way to its tip. */
  lemma {:induction false} OnTheWay(db: Tables, id: Id)
    requires Linked(db) && Unique(db) && id in db.offers
    ensures id in History(db, Tip(db, id))
    decreases |Above(db, id)|
  {
    if Deprecated(db, id) {
      var n :| Succ(db, id, n) && Tip(db, id) == Tip(db, n);
      AboveShrinks(db, id, n);
      OnTheWay(db, n);
      var h := History(db, Tip(db, n));
      var i :| 0 <= i < |h| && h[i] == n;
      assert i > 0;
      assert Succ(db, h[i - 1], n);
    }
  }

  /**
   * A whole chain: the original, deprecated and never sold; then sold and deprecated offers; then one
   * available offer that is not sold. Nothing else starts at that original.
   */
  lemma ChainShape(env: Env, db: Tables, tip: Id)
    requires Inv(env, db) && Available(db, tip)
    ensures var h := History(db, tip);
      && |h| >= 2 && IsOriginal(db, h[0]) && h[0] !in db.orders
      && (forall i :: 0 < i < |h| - 1 ==> h[i] in db.orders && h[i] in db.contracts)
      && (forall i :: 0 <= i < |h| - 1 ==> Deprecated(db, h[i]))
      && tip !in db.orders
      && (forall x :: x in db.offers ==> (Root(db, x) == h[0] <==> x in h))
  {
    hide PreSave, Purchase, BrAddress, SignedOver, BrokerSigned, SellerSigned, LastAddress, Root, Tip, AddressOk;
    var h := History(db, tip);
    assert OriginalOk(env, db, h[0]);
    assert h[0] != tip && |h| >= 2;
    forall i | 0 <= i < |h| - 1
      ensures Deprecated(db, h[i]) && (i > 0 ==> h[i] in db.orders && h[i] in db.contracts)
    {
      assert Succ(db, h[i], h[i + 1]);
      assert LinkOk(env, db, h[i], h[i + 1]);
      if i > 0 {
        assert Succ(db, h[i - 1], h[i]);
      }
    }
    assert tip in db.orders ==> SoldOk(env, db, tip);
    forall x | x in db.offers && Root(db, x) == h[0] ensures x in h {
      TipRoot(db, x);
      OneTip(db, tip, Tip(db, x));
      OnTheWay(db, x);
    }
  }

  /** Conservation over a whole chain: the original is the tip plus everything its chain ever sold. */
  lemma ChainConservation(env: Env, db: Tables, tip: Id, t: nat)
    requires Inv(env, db) && Available(db, tip) && t < |Values(db, Root(db, tip))|
    ensures |Values(db, tip)| == |Values(db, Root(db, tip))|
    ensures Values(db, Root(db, tip))[t] == Values(db, tip)[t] + Bought(db, History(db, tip), t)
    ensures Values(db, tip)[t] >= 0 && Bought(db, History(db, tip), t) >= 0
  {
    hide Inv, History, Root, Values;
    InvIsLinked(env, db);
    Conservation(env, db, tip, t);
    ChainShape(env, db, tip);
  }

  /** `_original_offers`, deprecated and without an order, returns exactly the originals. */
  lemma OriginalOffers(env: Env, db: Tables, id: Id)
    requires Inv(env, db) && id in db.offers
    ensures Deprecated(db, id) && id !in db.orders <==> IsOriginal(db, id)
  {
    hide PreSave, Purchase, BrAddress, SignedOver, BrokerSigned, SellerSigned, LastAddress, Root;
    if IsOriginal(db, id) {
      assert OriginalOk(env, db, id);
    } else if Deprecated(db, id) {
      var n :| Succ(db, id, n);
      assert LinkOk(env, db, id, n);
    }
  }

  ghost function AvailableSet(db: Tables): set<Id> {
    set id | id in db.offers && Available(db, id)
  }

  /** How many AddOffer calls of a log succeeded. */
  ghost function Adds(env: Env, log: seq<Entry>): nat {
    if |log| == 0 then 0
    else
      var before, entry := Replay(env, log[..|log| - 1]), log[|log| - 1];
      Adds(env, log[..|log| - 1]) +
      if entry.call.AddOffer? && Exec(env, before, entry.call, entry.drawn).Ok? then 1 else 0
  }

  lemma AddDeprecates(env: Env, db: Tables, db': Tables, original: Offer, copy: Offer, f: Fresh, id: Id)
    requires Linked(db) && Added(env, db, db', original, copy, f)
    ensures Deprecated(db', id) <==> Deprecated(db, id) || id == f.first
    ensures !Deprecated(db, f.second)
  {
    hide PreSave, SellerSigned, BrokerSigned;
    assert Succ(db', f.first, f.second);
    if Deprecated(db, id) {
      var n :| Succ(db, id, n);
      assert Succ(db', id, n);
    }
    if Deprecated(db', id) {
      var n :| Succ(db', id, n);
      assert n == f.second || Succ(db, id, n);
    }
  }

  lemma AddAvailableAt(env: Env, db: Tables, db': Tables, original: Offer, copy: Offer, f: Fresh, id: Id)
    requires Linked(db) && Added(env, db, db', original, copy, f)
    ensures id in AvailableSet(db') <==> id in AvailableSet(db) || id == f.second
    ensures f.second !in AvailableSet(db)
  {
    hide PreSave, Linked, SellerSigned, BrokerSigned, Deprecated;
    AddDeprecates(env, db, db', original, copy, f, id);
  }

  lemma AddAvailable(env: Env, db: Tables, db': Tables, original: Offer, copy: Offer, f: Fresh)
    requires Inv(env, db) && Added(env, db, db', original, copy, f)
    ensures |AvailableSet(db')| == |AvailableSet(db)| + 1
  {
    hide Inv, Linked, Added, AvailableSet;
    InvIsLinked(env, db);
    forall id ensures id in AvailableSet(db') <==> id in AvailableSet(db) + {f.second} {
      AddAvailableAt(env, db, db', original, copy, f, id);
    }
    AddAvailableAt(env, db, db', original, copy, f, f.second);
    assert AvailableSet(db') == AvailableSet(db) + {f.second};
  }

  lemma SaleAvailable(env: Env, db: Tables, db': Tables, exact: Id, avail: Id, id: Id,
                      order: Order, contract: Contract, next: Offer)
    requires Inv(env, db) && Sale(env, db, db', exact, avail, id, order, contract, next)
    ensures |AvailableSet(db')| == |AvailableSet(db)|
  {
    hide PreSave, LinkOk, SoldOk, OriginalOk, BrokerSigned, Purchase, BrAddress, BuyerSigned, ContractSigned,
      LastAddress;
    assert Succ(db', avail, id);
    var kept := AvailableSet(db) - {avail};
    forall x ensures x in AvailableSet(db') <==> x in kept + {id} {
      if x in kept {
        assert forall n :: Succ(db', x, n) ==> Succ(db, x, n);
      }
      if x in AvailableSet(db') && x != id {
        assert forall n :: Succ(db, x, n) ==> Succ(db', x, n);
      }
    }
    assert AvailableSet(db') == kept + {id};
    assert avail in AvailableSet(db) && |kept| == |AvailableSet(db)| - 1;
  }

  /** After every run there are as many available offers as AddOffer calls that succeeded. */
  lemma {:induction false} AvailablePerAdd(env: Env, log: seq<Entry>)
    requires Lawful(env)
    ensures |AvailableSet(Replay(env, log))| == Adds(env, log)
  {
    hide Inv, Add, SellOffer, Tip, Added, Sale;
    if |log| > 0 {
      var init := log[..|log| - 1];
      AvailablePerAdd(env, init);
      ReplayKeeps(env, init);
      var before, entry := Replay(env, init), log[|log| - 1];
      var f := entry.drawn;
      if Exec(env, before, entry.call, f).Ok? {
        var after := Exec(env, before, entry.call, f).value;
        match entry.call {
          case AddOffer(terms, profile, signature) =>
            var original, copy := AddShape(env, before, terms, profile, signature, f);
            AddAvailable(env, before, after, original, copy, f);
          case PurchaseExact(r) =>
            var order, contract, next := SaleShape(env, before, r, r.offer.id, r.offer.id, f);
            SaleAvailable(env, before, after, r.offer.id, r.offer.id, f.first, order, contract, next);
          case PurchaseEquivalent(r) =>
            var tip := Tip(before, r.offer.id);
            var order, contract, next := SaleShape(env, before, r, r.offer.id, tip, f);
            SaleAvailable(env, before, after, r.offer.id, tip, f.first, order, contract, next);
        }
      }
    } else {
      assert AvailableSet(EMPTY) == {};
    }
  }
}
