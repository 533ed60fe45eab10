/**
 * The host's own set of hops against the data path's map: entries are inserted and evicted while the host
 * reads and deletes, and new keys travel to it as events.
 */
module HopSet {
  import opened Outcomes
  import opened Octets
  import opened Packet
  import opened Counters

  predicate IsHop(h: Hop) {
    h.ingress < 0x1_0000 && h.egress < 0x1_0000
  }

  predicate IsKey(k: nat) {
    k < 0x1_0000_0000
  }

  function HopOf(k: nat): (h: Hop)
    requires IsKey(k)
    ensures IsHop(h) && ToMapKey(h) == k
  {
    EventRoundTrip(k);
    HopOfEvent(EventBytes(k))
  }

  lemma HopOfKey(h: Hop)
    requires IsHop(h)
    ensures HopOf(ToMapKey(h)) == h
  {
    ToMapKeyInjective(HopOf(ToMapKey(h)), h);
  }

  // ---------------------------------------------------------------- a tick with the data path at rest

  class HostMonitor {
    var hops: map<Hop, Counter>

    ghost predicate Valid()
      reads this
    {
      forall h :: h in hops ==> IsHop(h)
    }

    constructor ()
      ensures Valid() && hops == map[]
    {
      hops := map[];
    }

    /** A new hop starts from zero. */
    method NewHop(event: Bytes)
      requires Valid() && |event| == 4
      modifies this
      ensures Valid() && hops == old(hops)[HopOfEvent(event) := ZERO]
    {
      hops := hops[HopOfEvent(event) := ZERO];
    }

    /**
     * `log_counters`: reads every known hop, in any order, and afterwards deletes those the map no longer
     * has. What stays has exactly what was counted since its key was inserted. A read that fails for
     * another reason, as those of `failing` do, leaves its hop as it was.
     */
    method LogCounters(path: DataPath, failing: set<Hop>)
      requires Valid() && path.Valid()
      modifies this
      ensures Valid()
      ensures hops.Keys == set h | h in old(hops) && (h in failing || ToMapKey(h) in path.counters)
      ensures forall h :: h in hops ==>
        hops[h] == if h in failing then old(hops)[h] else Counted(path.since[ToMapKey(h)])
    {
      hide Counted, ToMapKey;
      var todo := hops.Keys;
      var deleted: set<Hop> := {};
      while todo != {}
        invariant todo <= old(hops.Keys) && deleted <= old(hops.Keys) && hops.Keys == old(hops.Keys)
        invariant forall h :: h in hops ==> IsHop(h)
        invariant forall h :: h in old(hops) && h !in todo ==>
          (h in deleted <==> h !in failing && ToMapKey(h) !in path.counters)
        invariant forall h :: h in todo ==> h !in deleted && hops[h] == old(hops)[h]
        invariant forall h :: h in old(hops) && h in failing ==> hops[h] == old(hops)[h]
        invariant forall h :: h in old(hops) && h !in todo && h !in failing && ToMapKey(h) in path.counters ==>
          hops[h] == Counted(path.since[ToMapKey(h)])
        decreases todo
      {
        var h :| h in todo;
        todo := todo - {h};
        if h !in failing {
          var total := path.ReadPerCpuCounters(ToMapKey(h));
          if total.None? {
            deleted := deleted + {h};
          } else {
            hops := hops[h := total.value];
          }
        }
      }
      hops := hops - deleted;
    }
  }

  // ---------------------------------------------------------------- ticks racing with the data path

  /** Where one CPU is inside `count`, between looking a key up and reporting it. */
  datatype Cpu = Idle | Missed(key: nat) | Inserted(key: nat)

  datatype Host =
    | Waiting
    | Ticking(todo: set<Hop>, deleted: seq<Hop>)
    | Deleting(deleted: seq<Hop>)

  datatype World = World(
    live: set<nat>, cpus: map<nat, Cpu>, ring: seq<Bytes>, held: Option<Hop>, hops: map<Hop, Counter>, host: Host)

  ghost predicate Initial(w: World) {
    && w.live == {} && w.ring == [] && w.held == None && w.hops == map[] && w.host == Waiting
    && forall c :: c in w.cpus ==> w.cpus[c] == Idle
  }

  datatype Event =
    | Lookup(cpu: nat, key: nat)
    | Update(cpu: nat, stored: bool)
    | Report(cpu: nat, reserved: bool)
    | Evict(key: nat)
    | Take
    | Deliver
    | TickStart
    | Read(hop: Hop, value: Counter, failed: bool)
    | TickEnd
    | Delete
    | DeleteEnd

  /** One step: of a CPU, of the map, of the event reader, or of the host's loop. */
  ghost predicate Step(w: World, w': World, e: Event) {
    match e
    case Lookup(c, k) =>
      && c in w.cpus && w.cpus[c] == Idle && IsKey(k)
      && w' == if k in w.live then w else w.(cpus := w.cpus[c := Missed(k)])
    case Update(c, stored) =>
      && c in w.cpus && w.cpus[c].Missed?
      && (var k := w.cpus[c].key;
          w' == w.(cpus := w.cpus[c := Inserted(k)], live := if stored then w.live + {k} else w.live))
    case Report(c, reserved) =>
      && c in w.cpus && w.cpus[c].Inserted? && IsKey(w.cpus[c].key)
      && (var k := w.cpus[c].key;
          w' == if reserved
                then w.(cpus := w.cpus[c := Idle], ring := w.ring + [EventBytes(k)])
                else w.(cpus := w.cpus[c := Idle]))
    case Evict(k) => w' == w.(live := w.live - {k})
    case Take =>
      && w.held == None && |w.ring| > 0 && |w.ring[0]| == 4
      && w' == w.(held := Some(HopOfEvent(w.ring[0])), ring := w.ring[1..])
    case Deliver =>
      w.host == Waiting && w.held.Some? && w' == w.(held := None, hops := w.hops[w.held.value := ZERO])
    case TickStart => w.host == Waiting && w' == w.(host := Ticking(w.hops.Keys, []))
    case Read(h, value, failed) =>
      && w.host.Ticking? && h in w.host.todo && IsHop(h)
      && (var todo := w.host.todo - {h};
          w' == if failed then w.(host := Ticking(todo, w.host.deleted))
                else if ToMapKey(h) in w.live
                then w.(host := Ticking(todo, w.host.deleted), hops := w.hops[h := value])
                else w.(host := Ticking(todo, w.host.deleted + [h])))
    case TickEnd => w.host.Ticking? && w.host.todo == {} && w' == w.(host := Deleting(w.host.deleted))
    case Delete =>
      && w.host.Deleting? && |w.host.deleted| > 0
      && w' == w.(hops := w.hops - {w.host.deleted[0]}, host := Deleting(w.host.deleted[1..]))
    case DeleteEnd => w.host == Deleting([]) && w' == w.(host := Waiting)
  }

  ghost predicate IsRun(ws: seq<World>, es: seq<Event>) {
    && |ws| == |es| + 1 && Initial(ws[0])
    && forall i :: 0 <= i < |es| ==> Step(ws[i], ws[i + 1], es[i])
  }

  /** Hops that the current tick will delete. */
  function Queued(host: Host): seq<Hop> {
    match host
    case Waiting => []
    case Ticking(_, deleted) => deleted
    case Deleting(deleted) => deleted
  }

  /** The host knows the key and is not about to forget it. */
  ghost predicate Known(w: World, k: nat)
    requires IsKey(k)
  {
    HopOf(k) in w.hops && HopOf(k) !in Queued(w.host)
  }

  /** The host will hear of the key: from a CPU about to report it, the ring buffer, or the reader. */
  ghost predicate InFlight(w: World, k: nat)
    requires IsKey(k)
  {
    || EventBytes(k) in w.ring
    || w.held == Some(HopOf(k))
    || exists c :: c in w.cpus && w.cpus[c] == Inserted(k)
  }

  ghost predicate Heard(w: World, k: nat)
    requires IsKey(k)
  {
    Known(w, k) || InFlight(w, k)
  }

  ghost predicate WorldOk(w: World) {
    && (forall k :: k in w.live ==> IsKey(k))
    && (forall c :: c in w.cpus && !w.cpus[c].Idle? ==> IsKey(w.cpus[c].key))
    && (forall h :: h in w.hops ==> IsHop(h))
    && (w.held.Some? ==> IsHop(w.held.value))
    && (forall i :: 0 <= i < |w.ring| ==> |w.ring[i]| == 4)
    && (w.host.Ticking? ==> w.host.todo <= w.hops.Keys)
  }

  // ---------------------------------------------------------------- one step, one key

  /** A CPU that missed the key stores it, or finds it stored by another CPU, and is about to report it. */
  ghost predicate Inserts(w: World, e: Event, k: nat) {
    e.Update? && e.cpu in w.cpus && w.cpus[e.cpu] == Missed(k)
  }

  /** The report of a live key is dropped. */
  ghost predicate Drops(w: World, e: Event, k: nat) {
    e.Report? && !e.reserved && e.cpu in w.cpus && w.cpus[e.cpu] == Inserted(k) && k in w.live
  }

  /** The host has or gets the key by another way than the report of this CPU. */
  ghost predicate HeardElsewhere(w: World, cpu: nat, k: nat)
    requires IsKey(k)
  {
    || Known(w, k)
    || EventBytes(k) in w.ring
    || w.held == Some(HopOf(k))
    || exists d :: d in w.cpus && d != cpu && w.cpus[d] == Inserted(k)
  }

  ghost predicate HarmfulDrop(w: World, e: Event, k: nat) {
    Drops(w, e, k) && IsKey(k) && !HeardElsewhere(w, e.cpu, k)
  }

  /** A live key that the host hears of stays so, unless its last report is dropped. */
  lemma StepKeepsHeard(w: World, w': World, e: Event, k: nat)
    requires WorldOk(w) && Step(w, w', e) && IsKey(k) && k in w'.live
    requires (k in w.live ==> Heard(w, k)) && !HarmfulDrop(w, e, k)
    ensures Heard(w', k)
  {
    hide HopOfEvent, EventBytes, ToMapKey;
    match e {
      case Lookup(c, key) =>
        if w != w' {
          KeptInserted(w, w', c, k);
        }
      case Update(c, stored) =>
        if w.cpus[c].key == k {
          assert w'.cpus[c] == Inserted(k);
        } else {
          KeptInserted(w, w', c, k);
        }
      case Report(c, reserved) =>
        if w.cpus[c].key != k {
          KeptInserted(w, w', c, k);
        } else if reserved {
          assert w'.ring[|w.ring|] == EventBytes(k);
        } else {
          DropKeeps(w, w', c, k);
        }
      case Take =>
        if EventBytes(k) in w.ring && EventBytes(k) !in w'.ring {
          assert w.ring == [w.ring[0]] + w'.ring;
          assert w.ring[0] == EventBytes(k);
          HopOfIs(k);
        }
      case Read(h, _, _) =>
        HopOfKey(h);
      case _ =>
    }
  }

  /** A dropped report leaves the host with exactly what it hears elsewhere. */
  lemma DropKeeps(w: World, w': World, c: nat, k: nat)
    requires IsKey(k) && Step(w, w', Report(c, false)) && w.cpus[c] == Inserted(k)
    ensures Heard(w', k) <==> HeardElsewhere(w, c, k)
  {
    hide HopOf, EventBytes;
    if exists d :: d in w.cpus && d != c && w.cpus[d] == Inserted(k) {
      var d :| d in w.cpus && d != c && w.cpus[d] == Inserted(k);
      assert w'.cpus[d] == Inserted(k);
    }
  }

  lemma HopOfIs(k: nat)
    requires IsKey(k)
    ensures HopOf(k) == HopOfEvent(EventBytes(k))
  {
  }

  /** Other CPUs keep what they are about to report. */
  lemma KeptInserted(w: World, w': World, c: nat, k: nat)
    requires IsKey(k) && c in w.cpus && c in w'.cpus && w'.cpus == w.cpus[c := w'.cpus[c]]
    requires w.cpus[c] != Inserted(k)
    requires w'.ring == w.ring || exists b :: w'.ring == w.ring + [b]
    requires w'.held == w.held
    ensures InFlight(w, k) ==> InFlight(w', k)
  {
    if exists d :: d in w.cpus && w.cpus[d] == Inserted(k) {
      var d :| d in w.cpus && w.cpus[d] == Inserted(k);
      assert w'.cpus[d] == Inserted(k);
    }
  }

  /** A key that the host does not hear of stays so until a CPU inserts it. */
  lemma StepKeepsUnheard(w: World, w': World, e: Event, k: nat)
    requires WorldOk(w) && Step(w, w', e) && IsKey(k) && !Heard(w, k) && !Inserts(w, e, k)
    ensures !Heard(w', k)
  {
    hide HopOfEvent, EventBytes, ToMapKey;
    match e {
      case Report(c, reserved) =>
        var key := w.cpus[c].key;
        if reserved && EventBytes(key) == EventBytes(k) {
          EventsDiffer(key, k);
        }
      case Take =>
        if w'.held == Some(HopOf(k)) {
          HopOfTaken(w.ring[0], k);
        }
      case _ =>
    }
  }

  lemma EventsDiffer(k: nat, k': nat)
    requires IsKey(k) && IsKey(k') && EventBytes(k) == EventBytes(k')
    ensures k == k'
  {
    EventRoundTrip(k);
    EventRoundTrip(k');
  }

  /** Only the event of a key is decoded to its hop. */
  lemma HopOfTaken(event: Bytes, k: nat)
    requires IsKey(k) && |event| == 4 && HopOfEvent(event) == HopOf(k)
    ensures event == EventBytes(k)
  {
    hide EventBytes, ToMapKey, HopOf;
    var made := EventBytes(k);
    HopOfIs(k);
    assert Be16(event, 0) == Be16(made, 0) && Be16(event, 2) == Be16(made, 2);
  }

  lemma StepOk(w: World, w': World, e: Event)
    requires WorldOk(w) && Step(w, w', e)
    ensures WorldOk(w')
  {
    hide HopOf, ToMapKey;
  }

  // ---------------------------------------------------------------- every run

  lemma {:induction false} RunOk(ws: seq<World>, es: seq<Event>, i: nat)
    requires IsRun(ws, es) && i < |ws|
    ensures WorldOk(ws[i])
  {
    hide Step;
    if i > 0 {
      RunOk(ws, es, i - 1);
      assert Step(ws[i - 1], ws[i - 1 + 1], es[i - 1]);
      StepOk(ws[i - 1], ws[i], es[i - 1]);
    }
  }

  /** The report of the key at step `j` was dropped with harm; since then it was neither evicted nor inserted. */
  ghost predicate DroppedSince(ws: seq<World>, es: seq<Event>, j: nat, i: nat, k: nat)
    requires |ws| == |es| + 1 && j < i < |ws|
  {
    && HarmfulDrop(ws[j], es[j], k)
    && forall m :: j < m < i ==> k in ws[m].live && !Inserts(ws[m], es[m], k)
  }

  lemma {:induction false} DropForgets(ws: seq<World>, es: seq<Event>, j: nat, i: nat, k: nat)
    requires IsRun(ws, es) && IsKey(k) && j < i < |ws| && DroppedSince(ws, es, j, i, k)
    ensures !Heard(ws[i], k)
    decreases i
  {
    hide Step, Heard, Inserts, HeardElsewhere;
    assert Step(ws[i - 1], ws[i - 1 + 1], es[i - 1]);
    if j == i - 1 {
      DropKeeps(ws[j], ws[i], es[j].cpu, k);
    } else {
      DropForgets(ws, es, j, i - 1, k);
      RunOk(ws, es, i - 1);
      StepKeepsUnheard(ws[i - 1], ws[i], es[i - 1], k);
    }
  }

  lemma InsertIsHeard(w: World, w': World, e: Event, k: nat)
    requires Step(w, w', e) && IsKey(k) && Inserts(w, e, k)
    ensures Heard(w', k)
  {
    assert w'.cpus[e.cpu] == Inserted(k);
  }

  /** Keys only become live by being inserted. */
  lemma NewIsInserted(w: World, w': World, e: Event, k: nat)
    requires Step(w, w', e) && k !in w.live && k in w'.live
    ensures Inserts(w, e, k)
  {
  }

  lemma {:induction false} ForgottenWasDropped(ws: seq<World>, es: seq<Event>, i: nat, k: nat) returns (j: nat)
    requires IsRun(ws, es) && IsKey(k) && i < |ws| && k in ws[i].live && !Heard(ws[i], k)
    ensures j < i && DroppedSince(ws, es, j, i, k)
    decreases i
  {
    hide Step, Heard, Inserts, HarmfulDrop;
    assert i > 0;
    var w, w', e := ws[i - 1], ws[i], es[i - 1];
    assert Step(ws[i - 1], ws[i - 1 + 1], es[i - 1]);
    RunOk(ws, es, i - 1);
    if Inserts(w, e, k) {
      InsertIsHeard(w, w', e, k);
    }
    if k !in w.live {
      NewIsInserted(w, w', e, k);
    }
    if HarmfulDrop(w, e, k) {
      j := i - 1;
    } else if Heard(w, k) {
      StepKeepsHeard(w, w', e, k);
      assert false;
    } else {
      j := ForgottenWasDropped(ws, es, i - 1, k);
    }
  }

  /**
   * In any state of any run a key in the map is forgotten, neither known to the host nor on its way, exactly
   * when a report of it was dropped while nothing else carried it to the host, and since then the key was
   * neither evicted nor inserted by a CPU that had missed it.
   */
  lemma ForgottenIff(ws: seq<World>, es: seq<Event>, i: nat, k: nat)
    requires IsRun(ws, es) && i < |ws| && k in ws[i].live
    ensures IsKey(k)
    ensures !Heard(ws[i], k) <==> exists j :: 0 <= j < i && DroppedSince(ws, es, j, i, k)
  {
    hide Step, Heard, DroppedSince;
    RunOk(ws, es, i);
    if !Heard(ws[i], k) {
      var j := ForgottenWasDropped(ws, es, i, k);
    }
    if exists j :: 0 <= j < i && DroppedSince(ws, es, j, i, k) {
      var j :| 0 <= j < i && DroppedSince(ws, es, j, i, k);
      DropForgets(ws, es, j, i, k);
    }
  }

  /** In every state of the run the host hears of every key in the map. */
  ghost predicate AllHeard(ws: seq<World>) {
    forall i, k :: 0 <= i < |ws| && k in ws[i].live ==> IsKey(k) && Heard(ws[i], k)
  }

  ghost predicate NoHarmfulDrop(ws: seq<World>, es: seq<Event>)
    requires |ws| == |es| + 1
  {
    forall i, k :: 0 <= i < |es| ==> !HarmfulDrop(ws[i], es[i], k)
  }

  /** No live hop is ever forgotten exactly when each dropped report of a live key reached the host another way. */
  lemma NoneForgottenIff(ws: seq<World>, es: seq<Event>)
    requires IsRun(ws, es)
    ensures AllHeard(ws) <==> NoHarmfulDrop(ws, es)
  {
    hide Step, Heard, HeardElsewhere, Inserts;
    if !NoHarmfulDrop(ws, es) {
      var i, k :| 0 <= i < |es| && HarmfulDrop(ws[i], es[i], k);
      assert DroppedSince(ws, es, i, i + 1, k);
      DropForgets(ws, es, i, i + 1, k);
      DropKeepsLive(ws, es, i, k);
    }
    if NoHarmfulDrop(ws, es) {
      forall i, k | 0 <= i < |ws| && k in ws[i].live ensures IsKey(k) && Heard(ws[i], k) {
        ForgottenIff(ws, es, i, k);
      }
    }
  }

  lemma DropKeepsLive(ws: seq<World>, es: seq<Event>, i: nat, k: nat)
    requires IsRun(ws, es) && i < |es| && HarmfulDrop(ws[i], es[i], k)
    ensures k in ws[i + 1].live
  {
    hide HeardElsewhere;
    assert Step(ws[i], ws[i + 1], es[i]);
  }

  /** No report of the run found the ring buffer full. */
  ghost predicate NothingDropped(es: seq<Event>) {
    forall i :: 0 <= i < |es| ==> !(es[i].Report? && !es[i].reserved)
  }

  /**
   * When no reservation fails, after every step of every run each key in the map is known to the host and
   * not queued for deletion, or its event is still on the way, even if it was evicted and inserted again
   * while the host was reading or deleting.
   */
  lemma NoLiveHopForgotten(ws: seq<World>, es: seq<Event>, i: nat, k: nat)
    requires IsRun(ws, es) && NothingDropped(es) && i < |ws| && k in ws[i].live
    ensures IsKey(k) && (Known(ws[i], k) || InFlight(ws[i], k))
  {
    hide Step, Known, InFlight, HeardElsewhere;
    NoneForgottenIff(ws, es);
  }

  /** Once all events are delivered and no tick is running, the host knows every key in the map. */
  lemma QuietHostKnowsAll(ws: seq<World>, es: seq<Event>, i: nat, k: nat)
    requires IsRun(ws, es) && NothingDropped(es) && i < |ws| && k in ws[i].live
    requires ws[i].ring == [] && ws[i].held == None && ws[i].host == Waiting
    requires forall c :: c in ws[i].cpus ==> !ws[i].cpus[c].Inserted?
    ensures IsKey(k) && HopOf(k) in ws[i].hops
  {
    hide Step;
    NoLiveHopForgotten(ws, es, i, k);
  }

  // ---------------------------------------------------------------- what a tick deletes

  /** On the way to forgetting a hop: still to be read, queued for deletion, or gone. */
  ghost predicate Draining(w: World, h: Hop) {
    match w.host
    case Waiting => h !in w.hops
    case Ticking(todo, deleted) => h in w.hops ==> h in todo || h in deleted
    case Deleting(deleted) => h in w.hops ==> h in deleted
  }

  ghost predicate FailsToRead(e: Event, h: Hop) {
    e.Read? && e.hop == h && e.failed
  }

  lemma StepDrains(w: World, w': World, e: Event, k: nat)
    requires IsKey(k) && Step(w, w', e) && !w.host.Waiting? && Draining(w, HopOf(k))
    requires k !in w.live && !FailsToRead(e, HopOf(k))
    ensures Draining(w', HopOf(k)) && (w'.host.Waiting? ==> e == DeleteEnd)
  {
    hide HopOfEvent, EventBytes, ToMapKey;
  }

  /** From the start of a tick at step `i` to its end at step `j`. */
  ghost predicate IsTick(es: seq<Event>, i: nat, j: nat) {
    && i < j < |es| && es[i] == TickStart && es[j] == DeleteEnd
    && forall m :: i < m < j ==> es[m] != DeleteEnd
  }

  /** The key is not in the map during the tick, and no read of its hop fails for another reason. */
  ghost predicate MissingDuring(ws: seq<World>, es: seq<Event>, i: nat, j: nat, k: nat)
    requires |ws| == |es| + 1 && j < |es| && IsKey(k)
  {
    forall m :: i < m <= j ==> k !in ws[m].live && !FailsToRead(es[m], HopOf(k))
  }

  lemma TickStarts(w: World, w': World, h: Hop)
    requires Step(w, w', TickStart)
    ensures Draining(w', h) && !w'.host.Waiting?
  {
  }

  lemma {:induction false} TickDrains(ws: seq<World>, es: seq<Event>, i: nat, j: nat, m: nat, k: nat)
    requires IsRun(ws, es) && IsTick(es, i, j) && IsKey(k) && MissingDuring(ws, es, i, j, k) && i < m <= j
    ensures Draining(ws[m], HopOf(k)) && !ws[m].host.Waiting?
    decreases m
  {
    hide HopOf, Step, Draining;
    assert Step(ws[m - 1], ws[m - 1 + 1], es[m - 1]);
    if m - 1 == i {
      TickStarts(ws[i], ws[m], HopOf(k));
    } else {
      TickDrains(ws, es, i, j, m - 1, k);
      StepDrains(ws[m - 1], ws[m], es[m - 1], k);
    }
  }

  /** A hop whose key is not in the map while a tick lasts is no longer known when the tick ends. */
  lemma TickForgetsMissing(ws: seq<World>, es: seq<Event>, i: nat, j: nat, k: nat)
    requires IsRun(ws, es) && IsTick(es, i, j) && IsKey(k) && MissingDuring(ws, es, i, j, k)
    ensures HopOf(k) !in ws[j + 1].hops
  {
    hide HopOf;
    TickDrains(ws, es, i, j, j, k);
    assert Step(ws[j], ws[j + 1], es[j]);
  }

  /** One idle CPU and nothing on the way. */
  function Quiet(live: set<nat>, hops: map<Hop, Counter>, host: Host): World {
    World(live, map[0 := Idle], [], None, hops, host)
  }

  /** A packet of a new hop is counted and reported, and the report delivered. */
  lemma HopAppears(k: nat) returns (ws: seq<World>, es: seq<Event>)
    requires IsKey(k)
    ensures |ws| == 6 && es == [Lookup(0, k), Update(0, true), Report(0, true), Take, Deliver]
    ensures ws[0] == Quiet({}, map[], Waiting) && ws[5] == Quiet({k}, map[HopOf(k) := ZERO], Waiting)
    ensures forall i :: 0 <= i < 5 ==> Step(ws[i], ws[i + 1], es[i])
  {
    hide HopOfEvent, EventBytes, ToMapKey;
    HopOfIs(k);
    var w0 := Quiet({}, map[], Waiting);
    var w1 := w0.(cpus := map[0 := Missed(k)]);
    var w2 := w0.(cpus := map[0 := Inserted(k)], live := {k});
    var w3 := w0.(live := {k}, ring := [EventBytes(k)]);
    var w4 := w0.(live := {k}, held := Some(HopOf(k)));
    var w5 := Quiet({k}, map[HopOf(k) := ZERO], Waiting);
    ws := [w0, w1, w2, w3, w4, w5];
    es := [Lookup(0, k), Update(0, true), Report(0, true), Take, Deliver];
    assert w0.cpus[0 := Missed(k)] == w1.cpus;
    assert Step(w0, w1, es[0]);
    assert w1.cpus[0 := Inserted(k)] == w2.cpus && w1.live + {k} == w2.live;
    assert Step(w1, w2, es[1]);
    assert w2.cpus[0 := Idle] == w0.cpus && w2.ring + [EventBytes(k)] == w3.ring;
    assert Step(w2, w3, es[2]);
    assert w3.ring[1..] == [];
    assert Step(w3, w4, es[3]);
    assert w4.hops[HopOf(k) := ZERO] == w5.hops;
    assert Step(w4, w5, es[4]);
  }

  /** A tick stores the counters it reads. */
  lemma HopIsRead(k: nat, before: Counter, value: Counter) returns (ws: seq<World>, es: seq<Event>)
    requires IsKey(k)
    ensures |ws| == 5 && es == [TickStart, Read(HopOf(k), value, false), TickEnd, DeleteEnd]
    ensures ws[0] == Quiet({k}, map[HopOf(k) := before], Waiting) && ws[4] == Quiet({k}, map[HopOf(k) := value], Waiting)
    ensures forall i :: 0 <= i < 4 ==> Step(ws[i], ws[i + 1], es[i])
  {
    hide HopOfEvent, EventBytes, ToMapKey;
    var h := HopOf(k);
    var w0 := Quiet({k}, map[h := before], Waiting);
    var w1 := w0.(host := Ticking({h}, []));
    var w2 := Quiet({k}, map[h := value], Ticking({}, []));
    var w3 := w2.(host := Deleting([]));
    ws := [w0, w1, w2, w3, w2.(host := Waiting)];
    es := [TickStart, Read(h, value, false), TickEnd, DeleteEnd];
    assert w0.hops.Keys == {h};
    assert Step(w0, w1, es[0]);
    assert w1.host.todo - {h} == {} && w1.hops[h := value] == w2.hops;
    assert Step(w1, w2, es[1]);
    assert Step(w2, w3, es[2]);
    assert Step(w3, ws[4], es[3]);
  }

  /** An evicted hop is found missing and deleted by the next tick. */
  lemma HopIsDeleted(k: nat, value: Counter) returns (ws: seq<World>, es: seq<Event>)
    requires IsKey(k)
    ensures |ws| == 7 && es == [Evict(k), TickStart, Read(HopOf(k), value, false), TickEnd, Delete, DeleteEnd]
    ensures ws[0] == Quiet({k}, map[HopOf(k) := value], Waiting) && ws[6] == Quiet({}, map[], Waiting)
    ensures forall i :: 0 <= i < 6 ==> Step(ws[i], ws[i + 1], es[i])
  {
    hide HopOfEvent, EventBytes, ToMapKey;
    var h := HopOf(k);
    var w0 := Quiet({k}, map[h := value], Waiting);
    var w1 := Quiet({}, map[h := value], Waiting);
    var w2 := w1.(host := Ticking({h}, []));
    var w3 := w1.(host := Ticking({}, [h]));
    var w4 := w1.(host := Deleting([h]));
    var w5 := Quiet({}, map[], Deleting([]));
    ws := [w0, w1, w2, w3, w4, w5, w5.(host := Waiting)];
    es := [Evict(k), TickStart, Read(h, value, false), TickEnd, Delete, DeleteEnd];
    assert w0.live - {k} == {};
    assert Step(w0, w1, es[0]);
    assert w1.hops.Keys == {h};
    assert Step(w1, w2, es[1]);
    assert w2.host.todo - {h} == {} && w2.host.deleted + [h] == [h];
    assert Step(w2, w3, es[2]);
    assert Step(w3, w4, es[3]);
    assert w4.hops - {h} == map[] && w4.host.deleted[1..] == [];
    assert Step(w4, w5, es[4]);
    assert Step(w5, ws[6], es[5]);
  }

  /** A single failed reservation can be enough: the key is in the map and nothing tells the host. */
  lemma DroppedReportForgets(k: nat) returns (ws: seq<World>, es: seq<Event>)
    requires IsKey(k)
    ensures es == [Lookup(0, k), Update(0, true), Report(0, false)]
    ensures IsRun(ws, es) && k in ws[|es|].live && !Known(ws[|es|], k) && !InFlight(ws[|es|], k)
  {
    hide HopOfEvent, EventBytes, ToMapKey;
    var w0 := World({}, map[0 := Idle], [], None, map[], Waiting);
    var w1 := w0.(cpus := map[0 := Missed(k)]);
    var w2 := w0.(cpus := map[0 := Inserted(k)], live := {k});
    var w3 := w0.(live := {k});
    ws, es := [w0, w1, w2, w3], [Lookup(0, k), Update(0, true), Report(0, false)];
    assert w0.cpus[0 := Missed(k)] == w1.cpus && w1.cpus[0 := Inserted(k)] == w2.cpus;
    assert w2.cpus[0 := Idle] == w3.cpus && {} + {k} == {k};
    assert Step(w0, w1, es[0]) && Step(w1, w2, es[1]) && Step(w2, w3, es[2]);
  }
}
