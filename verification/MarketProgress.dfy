/** What a thread does when nothing stands in its way: a call that would succeed alone can commit. */
module MarketProgress {
  import opened Outcomes
  import opened Ledger
  import opened LedgerInvariant
  import opened LedgerTheorems
  import opened MarketThreads

  /** Steps of one thread, the others waiting. */
  ghost predicate IsPath(env: Env, iso: Isolation, ws: seq<World>, tid: Tid) {
    |ws| > 0 && forall i :: 0 <= i < |ws| - 1 ==> Step(env, iso, ws[i], ws[i + 1], tid)
  }

  lemma Joined(env: Env, iso: Isolation, ws: seq<World>, vs: seq<World>, tid: Tid) returns (all: seq<World>)
    requires IsPath(env, iso, ws, tid) && IsPath(env, iso, vs, tid) && ws[|ws| - 1] == vs[0]
    ensures IsPath(env, iso, all, tid) && all[0] == ws[0] && all[|all| - 1] == vs[|vs| - 1]
  {
    hide Step;
    all := ws + vs[1..];
    forall i | 0 <= i < |all| - 1 ensures Step(env, iso, all[i], all[i + 1], tid) {
      if i < |ws| - 1 {
        assert all[i] == ws[i] && all[i + 1] == ws[i + 1];
      } else {
        assert all[i] == vs[i - (|ws| - 1)] && all[i + 1] == vs[i + 1 - (|ws| - 1)];
      }
    }
  }

  lemma OneStep(env: Env, iso: Isolation, w: World, w': World, tid: Tid)
    requires Step(env, iso, w, w', tid)
    ensures IsPath(env, iso, [w, w'], tid)
  {
  }

  lemma WithTwice(w: World, tid: Tid, pc: Pc, pc': Pc)
    requires tid in w.threads
    ensures With(With(w, tid, pc), tid, pc') == With(w, tid, pc')
  {
    assert With(With(w, tid, pc), tid, pc').threads == With(w, tid, pc').threads;
  }

  // ---------------------------------------------------------------- finding the offers

  /** Inside the transaction, at some point of its program. */
  function At(w: World, tid: Tid, pc: Pc): World
    requires tid in w.threads
  {
    With(w, tid, pc).(mutex := Some(tid))
  }

  lemma {:induction false} WalksToTip(env: Env, iso: Isolation, w: World, tid: Tid, p: Picked) returns (ws: seq<World>)
    requires tid in w.threads && Linked(w.db) && Unique(w.db)
    requires p.availId in w.db.offers && w.db.offers[p.availId] == p.avail && Tip(w.db, p.availId) !in w.db.orders
    ensures IsPath(env, iso, ws, tid) && ws[0] == At(w, tid, Walking(w.db, p))
    ensures var tip := Tip(w.db, p.availId);
      ws[|ws| - 1] == At(w, tid, Chosen(w.db, p.(availId := tip, avail := w.db.offers[tip])))
    decreases |Above(w.db, p.availId)|
  {
    hide Unique;
    var here := At(w, tid, Walking(w.db, p));
    if Deprecated(w.db, p.availId) {
      var n :| Succ(w.db, p.availId, n);
      TipOfLink(w.db, p.availId, n);
      AboveShrinks(w.db, p.availId, n);
      var p' := p.(availId := n, avail := w.db.offers[n]);
      var next := At(w, tid, Walking(w.db, p'));
      WithTwice(w, tid, Walking(w.db, p), Walking(w.db, p'));
      assert ReadStep(iso, here, next, tid);
      OneStep(env, iso, here, next, tid);
      var rest := WalksToTip(env, iso, w, tid, p');
      ws := Joined(env, iso, [here, next], rest, tid);
    } else {
      var next := At(w, tid, Chosen(w.db, p));
      WithTwice(w, tid, Walking(w.db, p), Chosen(w.db, p));
      assert ReadStep(iso, here, next, tid);
      OneStep(env, iso, here, next, tid);
      ws := [here, next];
    }
  }

  ghost function PickedFor(db: Tables, exact: Id, avail: Id): Picked
    requires exact in db.offers && avail in db.offers
  {
    Picked(exact, db.offers[exact], avail, db.offers[avail])
  }

  lemma Locks(env: Env, iso: Isolation, w: World, tid: Tid) returns (ws: seq<World>)
    requires tid in w.threads && w.threads[tid].pc == Ready && IsPurchase(w.threads[tid].call) && w.mutex == None
    ensures IsPath(env, iso, ws, tid) && ws[0] == w && ws[|ws| - 1] == At(w, tid, Open(w.db))
  {
    var locked, open := At(w, tid, Locked), At(w, tid, Open(w.db));
    WithTwice(w, tid, Locked, Open(w.db));
    assert LockStep(w, locked, tid) && LockStep(locked, open, tid);
    ws := [w, locked, open];
  }

  lemma Chooses(env: Env, iso: Isolation, w: World, tid: Tid, exact: Id, avail: Id) returns (ws: seq<World>)
    requires tid in w.threads && IsPurchase(w.threads[tid].call) && Linked(w.db) && Unique(w.db)
    requires Select(w.db, w.threads[tid].call) == Ok((exact, avail))
    ensures exact in w.db.offers && avail in w.db.offers
    ensures IsPath(env, iso, ws, tid) && ws[0] == At(w, tid, Open(w.db))
    ensures ws[|ws| - 1] == At(w, tid, Chosen(w.db, PickedFor(w.db, exact, avail)))
  {
    hide Unique;
    var open := At(w, tid, Open(w.db));
    var p := PickedFor(w.db, exact, exact);
    if w.threads[tid].call.PurchaseExact? {
      var next := At(w, tid, Chosen(w.db, p));
      WithTwice(w, tid, Open(w.db), Chosen(w.db, p));
      assert ReadStep(iso, open, next, tid);
      OneStep(env, iso, open, next, tid);
      ws := [open, next];
    } else {
      var next := At(w, tid, Walking(w.db, p));
      WithTwice(w, tid, Open(w.db), Walking(w.db, p));
      assert ReadStep(iso, open, next, tid);
      OneStep(env, iso, open, next, tid);
      var rest := WalksToTip(env, iso, w, tid, p);
      ws := Joined(env, iso, [open, next], rest, tid);
    }
  }

  // ---------------------------------------------------------------- writing the rows

  /** What a sale that succeeds consists of. */
  ghost predicate Pieces(env: Env, db: Tables, r: Request, p: Picked, f: Fresh, order: Order, left: string,
                         last: Option<string>, contract: Contract, next: Offer) {
    && PlaceOrder(env, r, p.exactId, p.exact, p.avail) == Ok((order, left))
    && LastAddress(db, p.avail) == Ok(last) && DrawContract(env, order, p.exact, p.avail, last, f) == Ok(contract)
    && NextOffer(env, p.availId, p.avail, left, f) == Ok(next) && PreSave(env, next) && !Deprecated(db, p.availId)
    && p.availId !in db.orders && p.availId !in db.contracts
  }

  lemma SalePieces(env: Env, db: Tables, r: Request, exact: Id, avail: Id, f: Fresh)
    returns (order: Order, left: string, last: Option<string>, contract: Contract, next: Offer)
    requires exact in db.offers && avail in db.offers && SellOffer(env, db, r, exact, avail, f).Ok?
    ensures Pieces(env, db, r, PickedFor(db, exact, avail), f, order, left, last, contract, next)
    ensures SellOffer(env, db, r, exact, avail, f).value ==
      Tables(db.offers[f.first := next], db.orders[avail := order], db.contracts[avail := contract])
  {
    hide PlaceOrder, DrawContract, PreSave, LastAddress, SignedBytes;
    var placed := PlaceOrder(env, r, exact, db.offers[exact], db.offers[avail]).value;
    order, left := placed.0, placed.1;
    last := LastAddress(db, db.offers[avail]).value;
    contract := DrawContract(env, order, db.offers[exact], db.offers[avail], last, f).value;
    next := NextOffer(env, avail, db.offers[avail], left, f).value;
    var db1 := InsertSale(db, avail, order, contract).value;
    assert forall n :: Succ(db1, avail, n) <==> Succ(db, avail, n);
  }

  lemma Writes(env: Env, iso: Isolation, w: World, tid: Tid, p: Picked, f: Fresh, order: Order, left: string,
               last: Option<string>, contract: Contract, next: Offer) returns (ws: seq<World>)
    requires tid in w.threads && IsPurchase(w.threads[tid].call) && f.first == w.nextId
    requires Pieces(env, w.db, w.threads[tid].call.request, p, f, order, left, last, contract, next)
    ensures var g := f.(second := 0);
      && IsPath(env, iso, ws, tid) && ws[0] == At(w, tid, Chosen(w.db, p))
      && ws[|ws| - 1] == At(w, tid, Staged(p, order, contract, next, g)).(nextId := w.nextId + 1)
  {
    hide PlaceOrder, DrawContract, NextOffer, PreSave, LastAddress, Deprecated;
    var g := f.(second := 0);
    var chosen, placed := Chosen(w.db, p), OrderPlaced(w.db, p, order, left);
    var drawn, staged := Drawn(p, order, left, contract, f.now, f.salt1), Staged(p, order, contract, next, g);
    var last' := At(w, tid, staged).(nextId := w.nextId + 1);
    WithTwice(w, tid, chosen, placed);
    WithTwice(w, tid, placed, drawn);
    WithTwice(w, tid, drawn, staged);
    SameDraw(env, order, p.exact, p.avail, last, f);
    SameNext(env, p, left, f, g);
    assert WriteStep(env, iso, At(w, tid, chosen), At(w, tid, placed), tid);
    assert WriteStep(env, iso, At(w, tid, placed), At(w, tid, drawn), tid);
    assert WriteStep(env, iso, At(w, tid, drawn), last', tid) by {
      assert g == Fresh(w.nextId, 0, f.now, f.salt1, f.salt2);
    }
    ws := [At(w, tid, chosen), At(w, tid, placed), At(w, tid, drawn), last'];
  }

  lemma SameNext(env: Env, p: Picked, left: string, f: Fresh, g: Fresh)
    requires f.salt2 == g.salt2
    ensures NextOffer(env, p.availId, p.avail, left, f) == NextOffer(env, p.availId, p.avail, left, g)
  {
    hide SignWithBroker;
  }

  lemma Commits(env: Env, iso: Isolation, w: World, tid: Tid, p: Picked, order: Order, contract: Contract,
                next: Offer, f: Fresh) returns (ws: seq<World>)
    requires tid in w.threads
    ensures IsPath(env, iso, ws, tid)
    ensures ws[0] == At(w, tid, Staged(p, order, contract, next, f)).(nextId := w.nextId + 1)
    ensures ws[|ws| - 1] == With(w, tid, Done(true)).(
      mutex := None, nextId := w.nextId + 1,
      db := Tables(w.db.offers[f.first := next], w.db.orders[p.availId := order], w.db.contracts[p.availId := contract]),
      log := w.log + [Entry(w.threads[tid].call, f)], winners := w.winners + [tid])
  {
    var staged := At(w, tid, Staged(p, order, contract, next, f)).(nextId := w.nextId + 1);
    var out := With(w, tid, Done(true)).(
      mutex := None, nextId := w.nextId + 1,
      db := Tables(w.db.offers[f.first := next], w.db.orders[p.availId := order], w.db.contracts[p.availId := contract]),
      log := w.log + [Entry(w.threads[tid].call, f)], winners := w.winners + [tid]);
    var committed := out.(mutex := Some(tid), threads := With(w, tid, Committed).threads);
    WithTwice(w, tid, Staged(p, order, contract, next, f), Committed);
    WithTwice(w, tid, Committed, Done(true));
    assert WriteStep(env, iso, staged, committed, tid);
    assert LockStep(committed, out, tid);
    ws := [staged, committed, out];
  }

  /**
   * A purchase thread that finds the mutex free, on tables where its call would succeed with the next row
   * id, can run to its end: it commits exactly the tables of that call and gives the mutex back.
   */
  lemma PurchaseCommits(env: Env, iso: Isolation, w: World, tid: Tid, f: Fresh) returns (ws: seq<World>)
    requires tid in w.threads && w.threads[tid].pc == Ready && IsPurchase(w.threads[tid].call) && w.mutex == None
    requires Inv(env, w.db) && Linked(w.db) && f.first == w.nextId && Exec(env, w.db, w.threads[tid].call, f).Ok?
    ensures IsPath(env, iso, ws, tid) && ws[0] == w
    ensures var w' := ws[|ws| - 1];
      && w'.threads == With(w, tid, Done(true)).threads && w'.mutex == None
      && w'.db == Exec(env, w.db, w.threads[tid].call, f).value && w'.winners == w.winners + [tid]
  {
    hide Inv, SellOffer, Step, Pieces, Select, Linked;
    InvIsLinked(env, w.db);
    var call := w.threads[tid].call;
    var (exact, avail) := Select(w.db, call).value;
    var locking := Locks(env, iso, w, tid);
    var choosing := Chooses(env, iso, w, tid, exact, avail);
    var order, left, last, contract, next := SalePieces(env, w.db, call.request, exact, avail, f);
    var p := PickedFor(w.db, exact, avail);
    var writing := Writes(env, iso, w, tid, p, f, order, left, last, contract, next);
    var ending := Commits(env, iso, w, tid, p, order, contract, next, f.(second := 0));
    ws := Joined(env, iso, locking, choosing, tid);
    ws := Joined(env, iso, ws, writing, tid);
    ws := Joined(env, iso, ws, ending, tid);
  }

  /** The same for AddOffer, whoever holds the mutex. */
  lemma AddCommits(env: Env, iso: Isolation, w: World, tid: Tid, f: Fresh) returns (ws: seq<World>)
    requires Lawful(env) && tid in w.threads && w.threads[tid].pc == Ready && w.threads[tid].call.AddOffer?
    requires f.first == w.nextId && f.second == w.nextId + 1
    requires Linked(w.db) && Exec(env, w.db, w.threads[tid].call, f).Ok?
    ensures IsPath(env, iso, ws, tid) && ws[0] == w
    ensures var w' := ws[|ws| - 1];
      && w'.threads == With(w, tid, Done(true)).threads && w'.mutex == w.mutex
      && w'.db == Exec(env, w.db, w.threads[tid].call, f).value && w'.winners == w.winners + [tid]
  {
    hide SellerSigned, PreSave, SignedBytes, BrokerSigned, Linked;
    var call, g := w.threads[tid].call, f.(now := 0, salt2 := 0);
    var original, copy := AddPieces(env, w.db, call, f);
    var adding := With(w, tid, Adding);
    var first := With(w, tid, AddedFirst(w.nextId, original)).(nextId := w.nextId + 1);
    var both := With(w, tid, AddedBoth(original, copy, g)).(nextId := w.nextId + 2);
    var out := With(w, tid, Done(true)).(
      nextId := w.nextId + 2, db := w.db.(offers := w.db.offers[f.first := original][f.second := copy]),
      log := w.log + [Entry(call, g)], winners := w.winners + [tid]);
    WithTwice(w, tid, Adding, AddedFirst(w.nextId, original));
    WithTwice(w, tid, AddedFirst(w.nextId, original), AddedBoth(original, copy, g));
    WithTwice(w, tid, AddedBoth(original, copy, g), Done(true));
    assert g == Fresh(w.nextId, w.nextId + 1, 0, f.salt1, 0);
    assert AddStep(env, w, adding, tid) && AddStep(env, adding, first, tid);
    assert AddStep(env, first, both, tid) && AddStep(env, both, out, tid);
    ws := [w, adding, first, both, out];
  }

  lemma AddPieces(env: Env, db: Tables, call: Call, f: Fresh) returns (original: Offer, copy: Offer)
    requires Linked(db) && call.AddOffer? && Exec(env, db, call, f).Ok?
    ensures original == Offer(call.terms, call.profile, call.signature, None)
    ensures SellerSigned(env, original) && PreSave(env, original) && PreSave(env, copy)
    ensures SignWithBroker(env, original.(deprecates := Some(f.first)), f.salt1) == Ok(copy)
    ensures Exec(env, db, call, f).value == db.(offers := db.offers[f.first := original][f.second := copy])
  {
    hide PreSave, SignedBytes;
    original := Offer(call.terms, call.profile, call.signature, None);
    copy := SignWithBroker(env, original.(deprecates := Some(f.first)), f.salt1).value;
  }
}
