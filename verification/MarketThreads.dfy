/**
 * Any number of RPC threads against one database. Purchases take the service's mutex and then open a
 * transaction; AddOffer only opens a transaction. Reads see either the rows committed by now or the
 * snapshot taken when the transaction began, writes stay private until the commit, and a transaction
 * may be rolled back at any point. Every run is equivalent to running the committed calls one by one.
 */
module MarketThreads {
  import opened Outcomes
  import opened Signing
  import opened Ledger
  import opened LedgerInvariant
  import opened LedgerTheorems
  import LedgerCalls

  type Tid = nat

  datatype Isolation = ReadCommitted | Snapshot

  /** The two rows a purchase works with, as it read them. */
  datatype Picked = Picked(exactId: Id, exact: Offer, availId: Id, avail: Offer)

  datatype Pc =
    | Ready
    // purchases
    | Locked
    | Open(snap: Tables)
    | Walking(snap: Tables, p: Picked)
    | Chosen(snap: Tables, p: Picked)
    | OrderPlaced(snap: Tables, p: Picked, order: Order, left: string)
    | Drawn(p: Picked, order: Order, left: string, contract: Contract, now: int, salt: nat)
    | Staged(p: Picked, order: Order, contract: Contract, next: Offer, f: Fresh)
    | Committed
    | RolledBack
    // AddOffer
    | Adding
    | AddedFirst(id: Id, original: Offer)
    | AddedBoth(original: Offer, copy: Offer, f: Fresh)
    // finished
    | Done(ok: bool)

  datatype Thread = Thread(call: Call, pc: Pc)

  /** `log` and `winners` record, for each commit, the call with the values it drew, and its thread. */
  datatype World = World(
    db: Tables, nextId: Id, mutex: Option<Tid>, threads: map<Tid, Thread>, log: seq<Entry>, winners: seq<Tid>)

  ghost predicate Initial(w: World) {
    w == World(EMPTY, 0, None, map[], [], [])
  }

  function With(w: World, tid: Tid, pc: Pc): World
    requires tid in w.threads
  {
    w.(threads := w.threads[tid := Thread(w.threads[tid].call, pc)])
  }

  function View(iso: Isolation, snap: Tables, db: Tables): Tables {
    if iso.Snapshot? then snap else db
  }

  ghost predicate IsPurchase(call: Call) {
    !call.AddOffer?
  }

  // ---------------------------------------------------------------- steps

  ghost predicate Arrive(w: World, w': World, tid: Tid) {
    tid !in w.threads && exists call :: w' == w.(threads := w.threads[tid := Thread(call, Ready)])
  }

  /** Taking the mutex, opening the transaction, and giving the mutex back. */
  ghost predicate LockStep(w: World, w': World, tid: Tid)
    requires tid in w.threads
  {
    match w.threads[tid].pc
    case Ready => IsPurchase(w.threads[tid].call) && w.mutex == None && w' == With(w, tid, Locked).(mutex := Some(tid))
    case Locked => w' == With(w, tid, Open(w.db))
    case Committed => w' == With(w, tid, Done(true)).(mutex := None)
    case RolledBack => w' == With(w, tid, Done(false)).(mutex := None)
    case _ => false
  }

  /** Finding the offers: one query for an exact purchase, one per link of the chain otherwise. */
  ghost predicate ReadStep(iso: Isolation, w: World, w': World, tid: Tid)
    requires tid in w.threads
  {
    var call := w.threads[tid].call;
    match w.threads[tid].pc
    case Open(snap) =>
      IsPurchase(call) &&
      var view, id := View(iso, snap, w.db), call.request.offer.id;
      && id in view.offers
      && (call.PurchaseExact? ==> !Deprecated(view, id))
      && (var p := Picked(id, view.offers[id], id, view.offers[id]);
          w' == With(w, tid, if call.PurchaseExact? then Chosen(snap, p) else Walking(snap, p)))
    case Walking(snap, p) =>
      var view := View(iso, snap, w.db);
      if Deprecated(view, p.availId) then
        exists n :: Succ(view, p.availId, n)
          && w' == With(w, tid, Walking(snap, p.(availId := n, avail := view.offers[n])))
      else p.availId !in view.orders && w' == With(w, tid, Chosen(snap, p))
    case _ => false
  }

  /** Order, contract and new offer, in the order they are written inside the transaction. */
  ghost predicate WriteStep(env: Env, iso: Isolation, w: World, w': World, tid: Tid)
    requires tid in w.threads
  {
    var call := w.threads[tid].call;
    match w.threads[tid].pc
    case Chosen(snap, p) =>
      && IsPurchase(call)
      && (var placed := PlaceOrder(env, call.request, p.exactId, p.exact, p.avail);
          placed.Ok? && p.availId !in w.db.orders
          && w' == With(w, tid, OrderPlaced(snap, p, placed.value.0, placed.value.1)))
    case OrderPlaced(snap, p, order, left) =>
      var last := LastAddress(View(iso, snap, w.db), p.avail);
      && last.Ok? && p.availId !in w.db.contracts
      && exists now, salt ::
           var contract := DrawContract(env, order, p.exact, p.avail, last.value, Fresh(0, 0, now, salt, 0));
           contract.Ok? && w' == With(w, tid, Drawn(p, order, left, contract.value, now, salt))
    case Drawn(p, order, left, contract, now, salt) =>
      exists salt2 ::
        var f := Fresh(w.nextId, 0, now, salt, salt2);
        var next := NextOffer(env, p.availId, p.avail, left, f);
        next.Ok? && PreSave(env, next.value) && !Deprecated(w.db, p.availId)
        && w' == With(w, tid, Staged(p, order, contract, next.value, f)).(nextId := w.nextId + 1)
    case Staged(p, order, contract, next, f) =>
      w' == With(w, tid, Committed).(
        db := Tables(w.db.offers[f.first := next], w.db.orders[p.availId := order],
                     w.db.contracts[p.availId := contract]),
        log := w.log + [Entry(call, f)], winners := w.winners + [tid])
    case _ => false
  }

  /** An AddOffer transaction: two inserts and a commit. */
  ghost predicate AddStep(env: Env, w: World, w': World, tid: Tid)
    requires tid in w.threads
  {
    var call := w.threads[tid].call;
    match w.threads[tid].pc
    case Ready => call.AddOffer? && w' == With(w, tid, Adding)
    case Adding =>
      && call.AddOffer?
      && (var original := Offer(call.terms, call.profile, call.signature, None);
          SellerSigned(env, original) && PreSave(env, original)
          && w' == With(w, tid, AddedFirst(w.nextId, original)).(nextId := w.nextId + 1))
    case AddedFirst(id, original) =>
      exists salt ::
        var copy := SignWithBroker(env, original.(deprecates := Some(id)), salt);
        copy.Ok? && PreSave(env, copy.value)
        && w' == With(w, tid, AddedBoth(original, copy.value, Fresh(id, w.nextId, 0, salt, 0))).(nextId := w.nextId + 1)
    case AddedBoth(original, copy, f) =>
      w' == With(w, tid, Done(true)).(
        db := w.db.(offers := w.db.offers[f.first := original][f.second := copy]),
        log := w.log + [Entry(call, f)], winners := w.winners + [tid])
    case _ => false
  }

  /** Any error, at any point of a transaction. */
  ghost predicate AbortStep(w: World, w': World, tid: Tid)
    requires tid in w.threads
  {
    match w.threads[tid].pc
    case Open(_) => w' == With(w, tid, RolledBack)
    case Walking(_, _) => w' == With(w, tid, RolledBack)
    case Chosen(_, _) => w' == With(w, tid, RolledBack)
    case OrderPlaced(_, _, _, _) => w' == With(w, tid, RolledBack)
    case Drawn(_, _, _, _, _, _) => w' == With(w, tid, RolledBack)
    case Staged(_, _, _, _, _) => w' == With(w, tid, RolledBack)
    case Adding => w' == With(w, tid, Done(false))
    case AddedFirst(_, _) => w' == With(w, tid, Done(false))
    case AddedBoth(_, _, _) => w' == With(w, tid, Done(false))
    case _ => false
  }

  ghost predicate Step(env: Env, iso: Isolation, w: World, w': World, tid: Tid) {
    || Arrive(w, w', tid)
    || (tid in w.threads
        && (LockStep(w, w', tid) || ReadStep(iso, w, w', tid) || WriteStep(env, iso, w, w', tid)
            || AddStep(env, w, w', tid) || AbortStep(w, w', tid)))
  }

  ghost predicate SomeStep(env: Env, iso: Isolation, w: World, w': World) {
    exists tid :: Step(env, iso, w, w', tid)
  }

  ghost predicate IsRun(env: Env, iso: Isolation, ws: seq<World>) {
    && |ws| > 0 && Initial(ws[0])
    && forall i :: 0 <= i < |ws| - 1 ==> SomeStep(env, iso, ws[i], ws[i + 1])
  }

  // ---------------------------------------------------------------- what threads rely on

  /** `b` is `a` with new chains added: nothing sold, and no offer of `a` deprecated meanwhile. */
  ghost predicate Extends(a: Tables, b: Tables) {
    && Linked(a) && Linked(b) && Unique(b)
    && (forall id :: id in a.offers ==> id in b.offers && b.offers[id] == a.offers[id])
    && a.orders == b.orders && a.contracts == b.contracts
    && (forall p, n :: Succ(b, p, n) && p in a.offers ==> Succ(a, p, n))
  }

  ghost predicate Holds(pc: Pc) {
    || pc.Locked? || pc.Open? || pc.Walking? || pc.Chosen? || pc.OrderPlaced? || pc.Drawn? || pc.Staged?
    || pc.Committed? || pc.RolledBack?
  }

  ghost predicate Won(pc: Pc) {
    pc.Committed? || pc == Done(true)
  }

  /** The rows are stored as read, and visible to the transaction. */
  ghost predicate PickedOk(iso: Isolation, db: Tables, snap: Tables, p: Picked) {
    && Extends(snap, db)
    && p.exactId in db.offers && db.offers[p.exactId] == p.exact
    && p.availId in View(iso, snap, db).offers && db.offers[p.availId] == p.avail
  }

  ghost predicate Selected(db: Tables, call: Call, p: Picked) {
    && Linked(db) && IsPurchase(call) && Select(db, call) == Ok((p.exactId, p.availId))
    && p.exactId in db.offers && db.offers[p.exactId] == p.exact
    && p.availId in db.offers && db.offers[p.availId] == p.avail
  }

  ghost predicate OrderOk(env: Env, call: Call, p: Picked, order: Order, left: string) {
    IsPurchase(call) && PlaceOrder(env, call.request, p.exactId, p.exact, p.avail) == Ok((order, left))
  }

  ghost predicate ContractOk(env: Env, db: Tables, p: Picked, order: Order, contract: Contract, now: int, salt: nat) {
    var last := LastAddress(db, p.avail);
    last.Ok? && DrawContract(env, order, p.exact, p.avail, last.value, Fresh(0, 0, now, salt, 0)) == Ok(contract)
  }

  ghost predicate StagedOk(env: Env, db: Tables, nextId: Id, call: Call, p: Picked, order: Order,
                           contract: Contract, next: Offer, f: Fresh) {
    && Selected(db, call, p)
    && (exists left :: OrderOk(env, call, p, order, left) && NextOffer(env, p.availId, p.avail, left, f) == Ok(next))
    && ContractOk(env, db, p, order, contract, f.now, f.salt1)
    && PreSave(env, next) && p.availId < f.first < nextId && f.first !in db.offers
  }

  ghost predicate AddOk(env: Env, call: Call, original: Offer) {
    && call.AddOffer? && original == Offer(call.terms, call.profile, call.signature, None)
    && SellerSigned(env, original) && PreSave(env, original)
  }

  ghost predicate CopyOk(env: Env, original: Offer, copy: Offer, f: Fresh) {
    SignWithBroker(env, original.(deprecates := Some(f.first)), f.salt1) == Ok(copy) && PreSave(env, copy)
  }

  /** What the thread has found out so far is true of the committed tables. */
  ghost predicate PcOk(env: Env, iso: Isolation, db: Tables, nextId: Id, t: Thread) {
    match t.pc
    case Ready => true
    case Locked => IsPurchase(t.call)
    case Open(snap) => IsPurchase(t.call) && Extends(snap, db)
    case Walking(snap, p) =>
      && t.call.PurchaseEquivalent? && PickedOk(iso, db, snap, p)
      && p.exactId == t.call.request.offer.id && Tip(db, p.availId) == Tip(db, p.exactId)
    case Chosen(snap, p) => PickedOk(iso, db, snap, p) && Selected(db, t.call, p)
    case OrderPlaced(snap, p, order, left) =>
      PickedOk(iso, db, snap, p) && Selected(db, t.call, p) && OrderOk(env, t.call, p, order, left)
    case Drawn(p, order, left, contract, now, salt) =>
      && Selected(db, t.call, p) && OrderOk(env, t.call, p, order, left)
      && ContractOk(env, db, p, order, contract, now, salt)
    case Staged(p, order, contract, next, f) => StagedOk(env, db, nextId, t.call, p, order, contract, next, f)
    case Adding => t.call.AddOffer?
    case AddedFirst(id, original) => AddOk(env, t.call, original) && id < nextId && id !in db.offers
    case AddedBoth(original, copy, f) =>
      && AddOk(env, t.call, original) && CopyOk(env, original, copy, f)
      && f.first < f.second < nextId && f.first !in db.offers && f.second !in db.offers
    case _ => true
  }

  /** Row ids a thread has been given but not committed. */
  ghost function Drafts(pc: Pc): set<Id> {
    match pc
    case Staged(_, _, _, _, f) => {f.first}
    case AddedFirst(id, _) => {id}
    case AddedBoth(_, _, f) => {f.first, f.second}
    case _ => {}
  }

  ghost predicate ThreadsOk(env: Env, iso: Isolation, w: World) {
    && (forall t :: t in w.threads ==> PcOk(env, iso, w.db, w.nextId, w.threads[t]))
    && (forall t :: t in w.threads && Holds(w.threads[t].pc) ==> w.mutex == Some(t))
    && (forall t, u :: t in w.threads && u in w.threads && t != u ==>
          Drafts(w.threads[t].pc) !! Drafts(w.threads[u].pc))
  }

  ghost predicate IdsOk(w: World) {
    forall id :: id in w.db.offers ==> id < w.nextId
  }

  /** The log is the committed calls, each by its own thread, and replaying it gives the tables. */
  ghost predicate LogOk(env: Env, w: World) {
    && w.db == Replay(env, w.log) && |w.winners| == |w.log|
    && (forall i :: 0 <= i < |w.log| ==> LedgerCalls.Succeeds(env, w.log, i))
    && (forall i :: 0 <= i < |w.log| ==>
          w.winners[i] in w.threads && w.threads[w.winners[i]].call == w.log[i].call && Won(w.threads[w.winners[i]].pc))
    && (forall t :: t in w.threads && Won(w.threads[t].pc) ==> t in w.winners)
    && (forall i, j :: 0 <= i < j < |w.winners| ==> w.winners[i] != w.winners[j])
  }

  ghost predicate WorldOk(env: Env, iso: Isolation, w: World) {
    Inv(env, w.db) && IdsOk(w) && ThreadsOk(env, iso, w) && LogOk(env, w)
  }

  // ---------------------------------------------------------------- stability under new chains

  lemma ExtendsSucc(a: Tables, b: Tables, p: Id)
    requires Extends(a, b) && p in a.offers
    ensures forall n :: Succ(a, p, n) <==> Succ(b, p, n)
    ensures Deprecated(a, p) <==> Deprecated(b, p)
  {
    forall n ensures Succ(a, p, n) <==> Succ(b, p, n) {
    }
    if Deprecated(a, p) {
      var n :| Succ(a, p, n);
      assert Succ(b, p, n);
    }
  }

  lemma ExtendsTransitive(a: Tables, b: Tables, c: Tables)
    requires Extends(a, b) && Extends(b, c)
    ensures Extends(a, c)
  {
    forall p, n | Succ(c, p, n) && p in a.offers ensures Succ(a, p, n) {
      assert Succ(b, p, n);
    }
  }

  lemma ExtendsRefl(a: Tables)
    requires Linked(a) && Unique(a)
    ensures Extends(a, a)
  {
  }

  lemma {:induction false} ExtendsTip(a: Tables, b: Tables, id: Id)
    requires Extends(a, b) && Unique(a) && id in a.offers
    ensures Tip(b, id) == Tip(a, id)
    decreases |Above(a, id)|
  {
    ExtendsSucc(a, b, id);
    if Deprecated(a, id) {
      var n :| Succ(a, id, n);
      TipOfLink(a, id, n);
      TipOfLink(b, id, n);
      AboveShrinks(a, id, n);
      ExtendsTip(a, b, n);
    }
  }

  lemma ExtendsSelected(a: Tables, b: Tables, call: Call, p: Picked)
    requires Extends(a, b) && Unique(a) && Selected(a, call, p)
    ensures Selected(b, call, p)
  {
    hide Tip;
    ExtendsSucc(a, b, p.exactId);
    ExtendsTip(a, b, p.exactId);
  }

  /** Commits of AddOffer change nothing another thread has found out. */
  lemma PcStable(env: Env, iso: Isolation, a: Tables, b: Tables, nextA: Id, nextB: Id, t: Thread)
    requires Extends(a, b) && Unique(a) && nextA <= nextB
    requires PcOk(env, iso, a, nextA, t)
    requires forall id :: id in Drafts(t.pc) ==> id !in b.offers
    ensures PcOk(env, iso, b, nextB, t)
  {
    hide Tip, Select, PlaceOrder, DrawContract, NextOffer, PreSave, SellerSigned, SignWithBroker, Selected, Linked,
      Unique;
    match t.pc {
      case Open(snap) => ExtendsTransitive(snap, a, b);
      case Walking(snap, p) =>
        PickedStable(iso, a, b, snap, p);
        ExtendsTip(a, b, p.availId);
        ExtendsTip(a, b, p.exactId);
      case Chosen(snap, p) =>
        PickedStable(iso, a, b, snap, p);
        ExtendsSelected(a, b, t.call, p);
      case OrderPlaced(snap, p, _, _) =>
        PickedStable(iso, a, b, snap, p);
        ExtendsSelected(a, b, t.call, p);
      case Drawn(p, _, _, _, _, _) => ExtendsSelected(a, b, t.call, p);
      case Staged(p, _, _, _, f) =>
        ExtendsSelected(a, b, t.call, p);
        assert f.first in Drafts(t.pc);
      case AddedFirst(id, _) => assert id in Drafts(t.pc);
      case AddedBoth(_, _, f) => assert f.first in Drafts(t.pc) && f.second in Drafts(t.pc);
      case _ =>
    }
  }

  lemma PickedStable(iso: Isolation, a: Tables, b: Tables, snap: Tables, p: Picked)
    requires Extends(a, b) && PickedOk(iso, a, snap, p)
    ensures PickedOk(iso, b, snap, p)
  {
    ExtendsTransitive(snap, a, b);
  }

  // ---------------------------------------------------------------- commits are serial executions

  lemma SaleOfPieces(env: Env, db: Tables, r: Request, exact: Id, avail: Id, f: Fresh,
                     order: Order, left: string, last: Option<string>, contract: Contract, next: Offer)
    requires exact in db.offers && Available(db, avail) && avail !in db.orders && avail !in db.contracts
    requires PlaceOrder(env, r, exact, db.offers[exact], db.offers[avail]) == Ok((order, left))
    requires LastAddress(db, db.offers[avail]) == Ok(last)
    requires DrawContract(env, order, db.offers[exact], db.offers[avail], last, f) == Ok(contract)
    requires NextOffer(env, avail, db.offers[avail], left, f) == Ok(next) && PreSave(env, next)
    requires avail < f.first && f.first !in db.offers
    ensures SellOffer(env, db, r, exact, avail, f) ==
      Ok(Tables(db.offers[f.first := next], db.orders[avail := order], db.contracts[avail := contract]))
  {
    hide PlaceOrder, LastAddress, DrawContract, NextOffer, PreSave;
    LedgerCalls.NextOfferLink(env, avail, db.offers[avail], left, f);
    var db1 := InsertSale(db, avail, order, contract).value;
    assert forall n :: Succ(db1, avail, n) ==> Succ(db, avail, n);
    assert InsertOffer(env, db1, f.first, next) == Ok(db1.(offers := db.offers[f.first := next]));
  }

  /** A staged sale, committed, is that call run alone on the committed tables. */
  lemma CommitIsExec(env: Env, db: Tables, nextId: Id, call: Call, p: Picked, order: Order, contract: Contract,
                     next: Offer, f: Fresh)
    requires Inv(env, db) && Linked(db) && StagedOk(env, db, nextId, call, p, order, contract, next, f)
    ensures Exec(env, db, call, f) ==
      Ok(Tables(db.offers[f.first := next], db.orders[p.availId := order], db.contracts[p.availId := contract]))
  {
    hide Select, PlaceOrder, PreSave, Inv, Linked, DrawContract, NextOffer, LastAddress, SellOffer;
    SelectedIsFree(env, db, call, p);
    var last := LastAddress(db, p.avail).value;
    SameDraw(env, order, p.exact, p.avail, last, f);
    var left :| OrderOk(env, call, p, order, left) && NextOffer(env, p.availId, p.avail, left, f) == Ok(next);
    SaleOfPieces(env, db, call.request, p.exactId, p.availId, f, order, left, last, contract, next);
  }

  lemma SameDraw(env: Env, order: Order, exact: Offer, avail: Offer, last: Option<string>, f: Fresh)
    ensures DrawContract(env, order, exact, avail, last, f)
         == DrawContract(env, order, exact, avail, last, Fresh(0, 0, f.now, f.salt1, 0))
  {
    hide BrAddress, ContractData;
  }

  lemma SelectedIsFree(env: Env, db: Tables, call: Call, p: Picked)
    requires Inv(env, db) && Selected(db, call, p)
    ensures Available(db, p.availId) && p.availId !in db.orders && p.availId !in db.contracts
  {
    hide Inv, Linked, Succ;
    LedgerCalls.OrdersDeprecated(env, db, p.availId);
  }

  lemma AddCommitIsExec(env: Env, db: Tables, call: Call, original: Offer, copy: Offer, f: Fresh)
    requires Linked(db) && AddOk(env, call, original) && CopyOk(env, original, copy, f)
    requires f.first < f.second && f.first !in db.offers && f.second !in db.offers
    ensures Exec(env, db, call, f) == Ok(db.(offers := db.offers[f.first := original][f.second := copy]))
  {
    hide PreSave, OfferBytes;
    var db1 := db.(offers := db.offers[f.first := original]);
    assert forall n :: !Succ(db1, f.first, n);
    assert copy.deprecates == Some(f.first);
    assert InsertOffer(env, db1, f.second, copy).Ok?;
  }

  lemma AddExtends(db: Tables, original: Offer, copy: Offer, f: Fresh)
    requires Linked(db) && Unique(db) && original.deprecates == None && copy.deprecates == Some(f.first)
    requires f.first < f.second && f.first !in db.offers && f.second !in db.offers
    ensures Extends(db, db.(offers := db.offers[f.first := original][f.second := copy]))
  {
    var db' := db.(offers := db.offers[f.first := original][f.second := copy]);
    forall p, n | Succ(db', p, n) ensures (p == f.first && n == f.second) || (Succ(db, p, n) && p != f.first) {
    }
  }

  // ---------------------------------------------------------------- every step keeps the invariant

  lemma SameLog(env: Env, w: World, w': World, tid: Tid, pc: Pc)
    requires LogOk(env, w) && tid in w.threads && (Won(w.threads[tid].pc) <==> Won(pc))
    requires w'.threads == With(w, tid, pc).threads && w'.db == w.db
    requires w'.log == w.log && w'.winners == w.winners
    ensures LogOk(env, w')
  {
    hide Replay, LedgerCalls.Succeeds, Won;
  }

  /** A step of one thread that commits nothing. */
  lemma PrivateStep(env: Env, iso: Isolation, w: World, w': World, tid: Tid, pc: Pc)
    requires WorldOk(env, iso, w) && tid in w.threads && (Won(w.threads[tid].pc) <==> Won(pc))
    requires w'.threads == With(w, tid, pc).threads && w'.db == w.db && w.nextId <= w'.nextId
    requires w'.log == w.log && w'.winners == w.winners
    requires PcOk(env, iso, w'.db, w'.nextId, Thread(w.threads[tid].call, pc))
    requires forall id :: id in Drafts(pc) ==> id in Drafts(w.threads[tid].pc) || id >= w.nextId
    requires forall t :: t in w'.threads && Holds(w'.threads[t].pc) ==> w'.mutex == Some(t)
    ensures WorldOk(env, iso, w')
  {
    hide Inv, LogOk, PcOk, Extends, Drafts, Won, Holds;
    SameLog(env, w, w', tid, pc);
    InvIsLinked(env, w.db);
    ExtendsRefl(w.db);
    forall t | t in w.threads
      ensures forall id :: id in Drafts(w.threads[t].pc) ==> id < w.nextId && id !in w.db.offers
      ensures t != tid ==> PcOk(env, iso, w'.db, w'.nextId, w'.threads[t])
    {
      DraftsFresh(env, iso, w, t);
      PcStable(env, iso, w.db, w.db, w.nextId, w'.nextId, w.threads[t]);
    }
  }

  lemma DraftsFresh(env: Env, iso: Isolation, w: World, t: Tid)
    requires ThreadsOk(env, iso, w) && t in w.threads
    ensures forall id :: id in Drafts(w.threads[t].pc) ==> id < w.nextId && id !in w.db.offers
  {
    hide Select, PlaceOrder, DrawContract, NextOffer, PreSave, SellerSigned, SignWithBroker, Selected, Extends;
    assert PcOk(env, iso, w.db, w.nextId, w.threads[t]);
  }

  lemma NewThread(env: Env, iso: Isolation, w: World, w': World, tid: Tid)
    requires WorldOk(env, iso, w) && Arrive(w, w', tid)
    ensures WorldOk(env, iso, w')
  {
    hide Inv, PcOk, LogOk, Drafts;
    var call := w'.threads[tid].call;
    assert w' == w.(threads := w.threads[tid := Thread(call, Ready)]);
    ReadyIsOk(env, iso, w.db, w.nextId, call);
    NewThreadLog(env, w, w', tid, call);
  }

  lemma ReadyIsOk(env: Env, iso: Isolation, db: Tables, nextId: Id, call: Call)
    ensures PcOk(env, iso, db, nextId, Thread(call, Ready)) && Drafts(Ready) == {}
  {
  }

  lemma NewThreadLog(env: Env, w: World, w': World, tid: Tid, call: Call)
    requires LogOk(env, w) && tid !in w.threads && w' == w.(threads := w.threads[tid := Thread(call, Ready)])
    ensures LogOk(env, w')
  {
    hide Replay, LedgerCalls.Succeeds;
  }

  lemma LockStepOk(env: Env, iso: Isolation, w: World, w': World, tid: Tid)
    requires WorldOk(env, iso, w) && tid in w.threads && LockStep(w, w', tid)
    ensures WorldOk(env, iso, w')
  {
    hide Inv, Replay, Exec, LogOk, IdsOk;
    InvIsLinked(env, w.db);
    assert Holds(w.threads[tid].pc) ==> w.mutex == Some(tid);
    match w.threads[tid].pc {
      case Ready => PrivateStep(env, iso, w, w', tid, Locked);
      case Locked =>
        assert PcOk(env, iso, w.db, w.nextId, w.threads[tid]);
        ExtendsRefl(w.db);
        PrivateStep(env, iso, w, w', tid, Open(w.db));
      case Committed => PrivateStep(env, iso, w, w', tid, Done(true));
      case RolledBack => PrivateStep(env, iso, w, w', tid, Done(false));
    }
  }

  lemma ViewSucc(iso: Isolation, snap: Tables, db: Tables, id: Id)
    requires Extends(snap, db) && id in View(iso, snap, db).offers
    ensures forall n :: Succ(View(iso, snap, db), id, n) <==> Succ(db, id, n)
    ensures Deprecated(View(iso, snap, db), id) <==> Deprecated(db, id)
    ensures id in db.offers && View(iso, snap, db).offers[id] == db.offers[id]
    ensures View(iso, snap, db).orders == db.orders && View(iso, snap, db).contracts == db.contracts
  {
    if iso.Snapshot? {
      ExtendsSucc(snap, db, id);
    }
  }

  lemma ReadStepOk(env: Env, iso: Isolation, w: World, w': World, tid: Tid)
    requires WorldOk(env, iso, w) && tid in w.threads && ReadStep(iso, w, w', tid)
    ensures WorldOk(env, iso, w')
  {
    hide Inv, Replay, Exec, LogOk, IdsOk, Tip, Linked, Unique;
    InvIsLinked(env, w.db);
    var t := w.threads[tid];
    assert PcOk(env, iso, w.db, w.nextId, t);
    assert Holds(t.pc) && w.mutex == Some(tid);
    match t.pc {
      case Open(snap) =>
        var id := t.call.request.offer.id;
        ViewSucc(iso, snap, w.db, id);
        PrivateStep(env, iso, w, w', tid, w'.threads[tid].pc);
      case Walking(snap, p) =>
        ViewSucc(iso, snap, w.db, p.availId);
        if Deprecated(w.db, p.availId) {
          WalkStep(env, iso, w, w', tid, snap, p);
        } else {
          TipOfTip(w.db, p.availId);
          PrivateStep(env, iso, w, w', tid, Chosen(snap, p));
        }
    }
  }

  lemma TipOfTip(db: Tables, id: Id)
    requires Linked(db) && Available(db, id)
    ensures Tip(db, id) == id
  {
  }

  lemma WalkStep(env: Env, iso: Isolation, w: World, w': World, tid: Tid, snap: Tables, p: Picked)
    requires WorldOk(env, iso, w) && tid in w.threads && ReadStep(iso, w, w', tid)
    requires w.threads[tid].pc == Walking(snap, p) && Extends(snap, w.db)
    requires Deprecated(View(iso, snap, w.db), p.availId)
    ensures WorldOk(env, iso, w')
  {
    hide Inv, Replay, Exec, LogOk, IdsOk, Tip, Linked, Unique;
    InvIsLinked(env, w.db);
    var t := w.threads[tid];
    assert PcOk(env, iso, w.db, w.nextId, t);
    var view := View(iso, snap, w.db);
    var n :| Succ(view, p.availId, n)
      && w' == With(w, tid, Walking(snap, p.(availId := n, avail := view.offers[n])));
    ViewSucc(iso, snap, w.db, p.availId);
    ViewSucc(iso, snap, w.db, n);
    TipOfLink(w.db, p.availId, n);
    PrivateStep(env, iso, w, w', tid, Walking(snap, p.(availId := n, avail := view.offers[n])));
  }

  lemma WriteStepOk(env: Env, iso: Isolation, w: World, w': World, tid: Tid)
    requires WorldOk(env, iso, w) && tid in w.threads && WriteStep(env, iso, w, w', tid)
    requires !w.threads[tid].pc.Staged?
    ensures WorldOk(env, iso, w')
  {
    hide Inv, Replay, Exec, LogOk, Tip, Linked, Unique, PlaceOrder, DrawContract, NextOffer, PreSave, LastAddress,
      Select;
    InvIsLinked(env, w.db);
    var t := w.threads[tid];
    assert PcOk(env, iso, w.db, w.nextId, t);
    assert Holds(t.pc) && w.mutex == Some(tid);
    match t.pc {
      case Chosen(snap, p) => PrivateStep(env, iso, w, w', tid, w'.threads[tid].pc);
      case OrderPlaced(snap, p, order, left) =>
        ViewLast(iso, snap, w.db, p.avail);
        PrivateStep(env, iso, w, w', tid, w'.threads[tid].pc);
      case Drawn(p, order, left, contract, now, salt) => StageStep(env, iso, w, w', tid);
    }
  }

  lemma ViewLast(iso: Isolation, snap: Tables, db: Tables, o: Offer)
    requires Extends(snap, db)
    ensures LastAddress(View(iso, snap, db), o) == LastAddress(db, o)
  {
  }

  lemma StageStep(env: Env, iso: Isolation, w: World, w': World, tid: Tid)
    requires WorldOk(env, iso, w) && tid in w.threads && WriteStep(env, iso, w, w', tid)
    requires w.threads[tid].pc.Drawn?
    ensures WorldOk(env, iso, w')
  {
    hide Inv, Replay, Exec, LogOk, Tip, Linked, Unique, PlaceOrder, DrawContract, NextOffer, PreSave, LastAddress,
      Select;
    var t := w.threads[tid];
    assert PcOk(env, iso, w.db, w.nextId, t);
    assert Holds(t.pc) && w.mutex == Some(tid);
    var Drawn(p, order, left, contract, now, salt) := t.pc;
    var pc := w'.threads[tid].pc;
    assert pc.Staged? && pc.f.first == w.nextId && w'.nextId == w.nextId + 1;
    assert OrderOk(env, t.call, p, order, left) && NextOffer(env, p.availId, p.avail, left, pc.f) == Ok(pc.next);
    assert StagedOk(env, w.db, w'.nextId, t.call, p, order, contract, pc.next, pc.f);
    PrivateStep(env, iso, w, w', tid, pc);
  }

  lemma AbortStepOk(env: Env, iso: Isolation, w: World, w': World, tid: Tid)
    requires WorldOk(env, iso, w) && tid in w.threads && AbortStep(w, w', tid)
    ensures WorldOk(env, iso, w')
  {
    hide Inv, LogOk, IdsOk, PcOk, AbortStep;
    var pc := Aborted(w, w', tid);
    WonIsOk(env, iso, w.db, w.nextId, Thread(w.threads[tid].call, pc));
    PrivateStep(env, iso, w, w', tid, pc);
  }

  /** A thread that gives up goes where it only has to give back the mutex, if it holds it. */
  lemma Aborted(w: World, w': World, tid: Tid) returns (pc: Pc)
    requires tid in w.threads && AbortStep(w, w', tid)
    ensures w' == With(w, tid, pc) && (pc == RolledBack || pc == Done(false)) && !Won(w.threads[tid].pc)
    ensures Holds(pc) ==> Holds(w.threads[tid].pc)
  {
    pc := w'.threads[tid].pc;
  }

  lemma AddStepOk(env: Env, iso: Isolation, w: World, w': World, tid: Tid)
    requires WorldOk(env, iso, w) && tid in w.threads && AddStep(env, w, w', tid)
    requires !w.threads[tid].pc.AddedBoth?
    ensures WorldOk(env, iso, w')
  {
    hide Inv, Replay, Exec, LogOk, SellerSigned, PreSave, SignWithBroker;
    var t := w.threads[tid];
    assert PcOk(env, iso, w.db, w.nextId, t);
    assert w.nextId !in w.db.offers;
    var pc := w'.threads[tid].pc;
    match t.pc {
      case Ready => PrivateStep(env, iso, w, w', tid, pc);
      case Adding => PrivateStep(env, iso, w, w', tid, pc);
      case AddedFirst(id, original) =>
        assert pc.AddedBoth? && SignWithBroker(env, original.(deprecates := Some(id)), pc.f.salt1) == Ok(pc.copy);
        PrivateStep(env, iso, w, w', tid, pc);
    }
  }

  // ---------------------------------------------------------------- commits

  /** What any commit needs: it is a serial execution, and the other threads' findings survive it. */
  lemma CommitOk(env: Env, iso: Isolation, w: World, w': World, tid: Tid, pc: Pc, f: Fresh)
    requires Lawful(env) && WorldOk(env, iso, w) && Linked(w.db) && tid in w.threads
    requires !Won(w.threads[tid].pc) && Won(pc) && (Holds(pc) ==> w.mutex == Some(tid))
    requires Exec(env, w.db, w.threads[tid].call, f) == Ok(w'.db)
    requires w' == With(w, tid, pc).(db := w'.db, log := w.log + [Entry(w.threads[tid].call, f)],
                                     winners := w.winners + [tid])
    requires IdsOk(w')
    requires forall t :: t in w.threads && t != tid ==> PcOk(env, iso, w'.db, w.nextId, w.threads[t])
    ensures WorldOk(env, iso, w')
  {
    hide Inv, Exec, PcOk, LogOk;
    ExecKeeps(env, w.db, w.threads[tid].call, f);
    LogGrows(env, w, w', tid, pc, f);
    forall t | t in w'.threads ensures PcOk(env, iso, w'.db, w'.nextId, w'.threads[t]) {
      WonIsOk(env, iso, w'.db, w'.nextId, Thread(w.threads[tid].call, pc));
    }
  }

  lemma WonIsOk(env: Env, iso: Isolation, db: Tables, nextId: Id, t: Thread)
    requires Won(t.pc) || t.pc == RolledBack || t.pc == Done(false)
    ensures PcOk(env, iso, db, nextId, t)
  {
  }

  lemma LogGrows(env: Env, w: World, w': World, tid: Tid, pc: Pc, f: Fresh)
    requires LogOk(env, w) && Linked(w.db) && tid in w.threads && !Won(w.threads[tid].pc) && Won(pc)
    requires Exec(env, w.db, w.threads[tid].call, f) == Ok(w'.db)
    requires w'.threads == With(w, tid, pc).threads
    requires w'.log == w.log + [Entry(w.threads[tid].call, f)] && w'.winners == w.winners + [tid]
    ensures LogOk(env, w')
  {
    hide Exec, Won;
    assert w'.log[..|w.log|] == w.log;
    assert Replay(env, w'.log) == w'.db;
    forall i | 0 <= i < |w'.log| ensures LedgerCalls.Succeeds(env, w'.log, i) {
      if i < |w.log| {
        assert w'.log[..i] == w.log[..i];
        assert LedgerCalls.Succeeds(env, w.log, i);
      }
    }
    assert tid !in w.winners;
  }

  lemma SaleCommitOk(env: Env, iso: Isolation, w: World, w': World, tid: Tid)
    requires Lawful(env) && WorldOk(env, iso, w) && tid in w.threads && WriteStep(env, iso, w, w', tid)
    requires w.threads[tid].pc.Staged?
    ensures WorldOk(env, iso, w')
  {
    hide Inv, Replay, Exec, Tip, Linked, Unique, PlaceOrder, DrawContract, NextOffer, PreSave, LastAddress, Select,
      LogOk, SellerSigned, SignWithBroker;
    InvIsLinked(env, w.db);
    var t := w.threads[tid];
    assert PcOk(env, iso, w.db, w.nextId, t);
    assert Holds(t.pc) && w.mutex == Some(tid);
    var Staged(p, order, contract, next, f) := t.pc;
    CommitIsExec(env, w.db, w.nextId, t.call, p, order, contract, next, f);
    forall u | u in w.threads && u != tid ensures PcOk(env, iso, w'.db, w.nextId, w.threads[u]) {
      assert PcOk(env, iso, w.db, w.nextId, w.threads[u]);
      assert !Holds(w.threads[u].pc);
      assert f.first in Drafts(t.pc) && f.first !in Drafts(w.threads[u].pc);
    }
    CommitOk(env, iso, w, w', tid, Committed, f);
  }

  lemma AddCommitOk(env: Env, iso: Isolation, w: World, w': World, tid: Tid)
    requires Lawful(env) && WorldOk(env, iso, w) && tid in w.threads && AddStep(env, w, w', tid)
    requires w.threads[tid].pc.AddedBoth?
    ensures WorldOk(env, iso, w')
  {
    hide Inv, Replay, Exec, Tip, Linked, Unique, PlaceOrder, DrawContract, NextOffer, PreSave, LastAddress, Select,
      LogOk, SellerSigned, Extends, Selected;
    InvIsLinked(env, w.db);
    var t := w.threads[tid];
    assert PcOk(env, iso, w.db, w.nextId, t);
    var AddedBoth(original, copy, f) := t.pc;
    assert copy.deprecates == Some(f.first);
    AddCommitIsExec(env, w.db, t.call, original, copy, f);
    AddExtends(w.db, original, copy, f);
    forall u | u in w.threads && u != tid ensures PcOk(env, iso, w'.db, w.nextId, w.threads[u]) {
      assert f.first in Drafts(t.pc) && f.second in Drafts(t.pc);
      DraftsFresh(env, iso, w, u);
      PcStable(env, iso, w.db, w'.db, w.nextId, w.nextId, w.threads[u]);
    }
    CommitOk(env, iso, w, w', tid, Done(true), f);
  }

  lemma StepOk(env: Env, iso: Isolation, w: World, w': World, tid: Tid)
    requires Lawful(env) && WorldOk(env, iso, w) && Step(env, iso, w, w', tid)
    ensures WorldOk(env, iso, w')
  {
    hide WorldOk, LockStep, ReadStep, WriteStep, AddStep, AbortStep, Arrive;
    if Arrive(w, w', tid) {
      NewThread(env, iso, w, w', tid);
    } else if LockStep(w, w', tid) {
      LockStepOk(env, iso, w, w', tid);
    } else if ReadStep(iso, w, w', tid) {
      ReadStepOk(env, iso, w, w', tid);
    } else if WriteStep(env, iso, w, w', tid) {
      if w.threads[tid].pc.Staged? {
        SaleCommitOk(env, iso, w, w', tid);
      } else {
        WriteStepOk(env, iso, w, w', tid);
      }
    } else if AddStep(env, w, w', tid) {
      if w.threads[tid].pc.AddedBoth? {
        AddCommitOk(env, iso, w, w', tid);
      } else {
        AddStepOk(env, iso, w, w', tid);
      }
    } else {
      AbortStepOk(env, iso, w, w', tid);
    }
  }

  // ---------------------------------------------------------------- every run is serialisable

  lemma {:induction false} RunOk(env: Env, iso: Isolation, ws: seq<World>, i: nat)
    requires Lawful(env) && IsRun(env, iso, ws) && i < |ws|
    ensures WorldOk(env, iso, ws[i])
  {
    hide Step;
    if i == 0 {
      InvEmpty(env);
    } else {
      RunOk(env, iso, ws, i - 1);
      assert SomeStep(env, iso, ws[i - 1], ws[i - 1 + 1]);
      var tid :| Step(env, iso, ws[i - 1], ws[i], tid);
      StepOk(env, iso, ws[i - 1], ws[i], tid);
    }
  }

  /** The mutex, when taken, is taken by a thread that will give it back. */
  ghost predicate OwnerOk(w: World) {
    w.mutex.Some? ==> w.mutex.value in w.threads && Holds(w.threads[w.mutex.value].pc)
  }

  lemma LockKeepsOwner(w: World, w': World, tid: Tid)
    requires OwnerOk(w) && tid in w.threads && LockStep(w, w', tid)
    ensures OwnerOk(w')
  {
  }

  /** A step inside a transaction neither takes the mutex nor stops holding it. */
  ghost predicate Inside(w: World, w': World, tid: Tid)
    requires tid in w.threads
  {
    && w'.mutex == w.mutex && w'.threads.Keys == w.threads.Keys
    && (forall t :: t in w.threads && t != tid ==> w'.threads[t] == w.threads[t])
    && (Holds(w.threads[tid].pc) ==> Holds(w'.threads[tid].pc))
  }

  lemma ReadIsInside(iso: Isolation, w: World, w': World, tid: Tid)
    requires tid in w.threads && ReadStep(iso, w, w', tid)
    ensures Inside(w, w', tid)
  {
    hide Deprecated, View, Succ;
  }

  lemma WriteIsInside(env: Env, iso: Isolation, w: World, w': World, tid: Tid)
    requires tid in w.threads && WriteStep(env, iso, w, w', tid)
    ensures Inside(w, w', tid)
  {
    hide Deprecated, PlaceOrder, DrawContract, NextOffer, PreSave, LastAddress, View;
  }

  lemma AddIsInside(env: Env, w: World, w': World, tid: Tid)
    requires tid in w.threads && AddStep(env, w, w', tid)
    ensures Inside(w, w', tid)
  {
    hide SellerSigned, PreSave, SignWithBroker;
  }

  lemma AbortIsInside(w: World, w': World, tid: Tid)
    requires tid in w.threads && AbortStep(w, w', tid)
    ensures Inside(w, w', tid)
  {
  }

  lemma StepKeepsOwner(env: Env, iso: Isolation, w: World, w': World, tid: Tid)
    requires OwnerOk(w) && Step(env, iso, w, w', tid)
    ensures OwnerOk(w')
  {
    hide LockStep, ReadStep, WriteStep, AddStep, AbortStep, Holds;
    if tid !in w.threads {
      assert Arrive(w, w', tid);
    } else if LockStep(w, w', tid) {
      LockKeepsOwner(w, w', tid);
    } else if ReadStep(iso, w, w', tid) {
      ReadIsInside(iso, w, w', tid);
    } else if WriteStep(env, iso, w, w', tid) {
      WriteIsInside(env, iso, w, w', tid);
    } else if AddStep(env, w, w', tid) {
      AddIsInside(env, w, w', tid);
    } else {
      AbortIsInside(w, w', tid);
    }
  }

  lemma {:induction false} RunKeepsOwner(env: Env, iso: Isolation, ws: seq<World>, i: nat)
    requires IsRun(env, iso, ws) && i < |ws|
    ensures OwnerOk(ws[i])
  {
    hide Step;
    if i > 0 {
      RunKeepsOwner(env, iso, ws, i - 1);
      assert SomeStep(env, iso, ws[i - 1], ws[i - 1 + 1]);
      var tid :| Step(env, iso, ws[i - 1], ws[i], tid);
      StepKeepsOwner(env, iso, ws[i - 1], ws[i], tid);
    }
  }

  /**
   * In every reachable state, under either isolation level and any interleaving: the committed tables are
   * what the winning calls give when run one after another, each of them succeeding; a call is in that
   * log exactly when its thread committed; at most one thread is between taking and giving back the mutex;
   * and no finished call, failed or not, keeps it.
   */
  lemma Serialisable(env: Env, iso: Isolation, ws: seq<World>)
    requires Lawful(env) && IsRun(env, iso, ws)
    ensures var w := ws[|ws| - 1];
      && Inv(env, w.db) && w.db == Replay(env, w.log)
      && (forall i :: 0 <= i < |w.log| ==> LedgerCalls.Succeeds(env, w.log, i))
      && |w.winners| == |w.log|
      && (forall t :: t in w.threads ==> (Won(w.threads[t].pc) <==> t in w.winners))
      && (forall i, j :: 0 <= i < j < |w.winners| ==> w.winners[i] != w.winners[j])
      && (forall i :: 0 <= i < |w.log| ==> w.winners[i] in w.threads && w.log[i].call == w.threads[w.winners[i]].call)
      && (forall t, u :: t in w.threads && u in w.threads && Holds(w.threads[t].pc) && Holds(w.threads[u].pc) ==> t == u)
      && OwnerOk(w)
  {
    hide Inv, Replay, Exec, PcOk, OwnerOk;
    RunOk(env, iso, ws, |ws| - 1);
    RunKeepsOwner(env, iso, ws, |ws| - 1);
  }

  /** Two exact purchases of the same offer never both commit, whatever the interleaving. */
  lemma NoDoubleSale(env: Env, iso: Isolation, ws: seq<World>, t: Tid, u: Tid)
    requires Lawful(env) && IsRun(env, iso, ws)
    requires var w := ws[|ws| - 1];
      && t in w.threads && u in w.threads && t != u
      && w.threads[t].call.PurchaseExact? && w.threads[u].call.PurchaseExact?
      && w.threads[t].call.request.offer.id == w.threads[u].call.request.offer.id
      && Won(w.threads[t].pc)
    ensures !Won(ws[|ws| - 1].threads[u].pc)
  {
    hide Inv, Replay, Exec, SomeStep, LedgerCalls.Succeeds;
    var w := ws[|ws| - 1];
    Serialisable(env, iso, ws);
    if Won(w.threads[u].pc) {
      var i :| 0 <= i < |w.winners| && w.winners[i] == t;
      var j :| 0 <= j < |w.winners| && w.winners[j] == u;
      if i < j {
        LedgerCalls.SoldAtMostOnce(env, w.log, i, j);
      } else {
        LedgerCalls.SoldAtMostOnce(env, w.log, j, i);
      }
    }
  }
}
