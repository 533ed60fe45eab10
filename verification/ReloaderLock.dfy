/**
 * Any number of processes working on one topology file under a lock file: exclusive creation, a bounded
 * number of attempts, and removal on the way out, whether or not an exception was raised inside.
 */
module ReloaderLock {
  import opened Outcomes
  import opened Conversion
  import opened Topology
  import opened TopologyTheorems

  type Pid = nat

  datatype Pc =
    | Trying(attempts: int)
    | Inside
    | Loaded(topo: Topo)
    | Changed(topo: Topo)
    | Raised
    | Written
    | GaveUp
    | Done(ok: bool)
    | LockLost

  datatype Process = Process(op: Op, pc: Pc)

  /** `log` and `winners` record the operations that were written, in order, and by whom. */
  datatype World = World(file: Topo, locked: bool, procs: map<Pid, Process>, log: seq<Op>, winners: seq<Pid>)

  function With(w: World, pid: Pid, pc: Pc): World
    requires pid in w.procs
  {
    w.(procs := w.procs[pid := Process(w.procs[pid].op, pc)])
  }

  /** A stored topology, and a lock file that may have been left behind by someone else. */
  ghost predicate Initial(topo: Topo, w: World) {
    w.file == topo && w.procs == map[] && w.log == [] && w.winners == []
  }

  ghost predicate Arrive(w: World, w': World, pid: Pid) {
    pid !in w.procs && exists op, attempts :: w' == w.(procs := w.procs[pid := Process(op, Trying(attempts))])
  }

  /** One step of `_lock`: create the lock file, or fail and count, or give up without touching it. */
  ghost predicate LockStep(w: World, w': World, pid: Pid)
    requires pid in w.procs
  {
    match w.procs[pid].pc
    case Trying(attempts) =>
      if attempts <= 0 then w' == With(w, pid, GaveUp)
      else if w.locked then w' == With(w, pid, Trying(attempts - 1))
      else w' == With(w, pid, Inside).(locked := true)
    case Raised => w' == if w.locked then With(w, pid, Done(false)).(locked := false) else With(w, pid, LockLost)
    case Written => w' == if w.locked then With(w, pid, Done(true)).(locked := false) else With(w, pid, LockLost)
    case _ => false
  }

  /** Read, modify and write, as separate steps. */
  ghost predicate WorkStep(cfg: Config, w: World, w': World, pid: Pid)
    requires pid in w.procs
  {
    var op := w.procs[pid].op;
    match w.procs[pid].pc
    case Inside => w' == With(w, pid, Loaded(w.file))
    case Loaded(topo) =>
      (match Apply(cfg, topo, op)
       case Ok(changed) => w' == With(w, pid, Changed(changed))
       case Err(_) => w' == With(w, pid, Raised))
    case Changed(topo) => w' == With(w, pid, Written).(file := topo, log := w.log + [op], winners := w.winners + [pid])
    case _ => false
  }

  ghost predicate Step(cfg: Config, w: World, w': World, pid: Pid) {
    || Arrive(w, w', pid)
    || (pid in w.procs && (LockStep(w, w', pid) || WorkStep(cfg, w, w', pid)))
  }

  ghost predicate SomeStep(cfg: Config, w: World, w': World) {
    exists pid :: Step(cfg, w, w', pid)
  }

  ghost predicate IsRun(cfg: Config, topo: Topo, ws: seq<World>) {
    && |ws| > 0 && Initial(topo, ws[0])
    && forall i :: 0 <= i < |ws| - 1 ==> SomeStep(cfg, ws[i], ws[i + 1])
  }

  /** Between creating the lock file and removing it. */
  predicate Holds(pc: Pc) {
    pc.Inside? || pc.Loaded? || pc.Changed? || pc.Raised? || pc.Written?
  }

  predicate Won(pc: Pc) {
    pc.Written? || pc == Done(true)
  }

  ghost predicate PcOk(cfg: Config, w: World, p: Process) {
    match p.pc
    case Loaded(topo) => topo == w.file
    case Changed(topo) => Apply(cfg, w.file, p.op) == Ok(topo)
    case LockLost => false
    case _ => true
  }

  /** Every logged operation succeeded when it was its turn. */
  ghost predicate AllSucceed(cfg: Config, topo: Topo, log: seq<Op>) {
    forall i :: 0 <= i < |log| ==> Apply(cfg, Run(cfg, topo, log[..i]), log[i]).Ok?
  }

  ghost predicate ProcsOk(cfg: Config, w: World) {
    && (forall p :: p in w.procs ==> PcOk(cfg, w, w.procs[p]))
    && (forall p :: p in w.procs && Holds(w.procs[p].pc) ==> w.locked)
    && (forall p, q :: p in w.procs && q in w.procs && Holds(w.procs[p].pc) && Holds(w.procs[q].pc) ==> p == q)
  }

  ghost predicate LogOk(cfg: Config, topo: Topo, w: World) {
    && w.file == Run(cfg, topo, w.log) && AllSucceed(cfg, topo, w.log)
    && |w.winners| == |w.log|
    && (forall i :: 0 <= i < |w.log| ==>
          w.winners[i] in w.procs && w.procs[w.winners[i]].op == w.log[i] && Won(w.procs[w.winners[i]].pc))
    && (forall p :: p in w.procs && Won(w.procs[p].pc) ==> p in w.winners)
    && (forall i, j :: 0 <= i < j < |w.winners| ==> w.winners[i] != w.winners[j])
  }

  ghost predicate WorldOk(cfg: Config, topo: Topo, w: World) {
    ProcsOk(cfg, w) && LogOk(cfg, topo, w)
  }

  lemma SameLog(cfg: Config, topo: Topo, w: World, w': World, pid: Pid, pc: Pc)
    requires LogOk(cfg, topo, w) && pid in w.procs && (Won(w.procs[pid].pc) <==> Won(pc))
    requires w'.procs == With(w, pid, pc).procs && w'.file == w.file && w'.log == w.log && w'.winners == w.winners
    ensures LogOk(cfg, topo, w')
  {
    hide Run, AllSucceed, Won;
  }

  lemma LockStepOk(cfg: Config, topo: Topo, w: World, w': World, pid: Pid)
    requires WorldOk(cfg, topo, w) && pid in w.procs && LockStep(w, w', pid)
    ensures WorldOk(cfg, topo, w')
  {
    hide Run, Apply, LogOk;
    SameLog(cfg, topo, w, w', pid, w'.procs[pid].pc);
    forall p | p in w'.procs ensures PcOk(cfg, w', w'.procs[p]) {
      assert p != pid ==> PcOk(cfg, w, w.procs[p]);
    }
  }

  lemma WorkStepOk(cfg: Config, topo: Topo, w: World, w': World, pid: Pid)
    requires WorldOk(cfg, topo, w) && pid in w.procs && WorkStep(cfg, w, w', pid)
    ensures WorldOk(cfg, topo, w')
  {
    hide Run, Apply, LogOk;
    assert PcOk(cfg, w, w.procs[pid]);
    if w.procs[pid].pc.Changed? {
      LogAppended(cfg, topo, w, w', pid);
    } else {
      SameLog(cfg, topo, w, w', pid, w'.procs[pid].pc);
    }
    forall p | p in w'.procs ensures PcOk(cfg, w', w'.procs[p]) {
      assert p != pid ==> PcOk(cfg, w, w.procs[p]) && !Holds(w.procs[p].pc);
    }
  }

  lemma LogAppended(cfg: Config, topo: Topo, w: World, w': World, pid: Pid)
    requires LogOk(cfg, topo, w) && pid in w.procs && w.procs[pid].pc.Changed?
    requires Apply(cfg, w.file, w.procs[pid].op) == Ok(w'.file)
    requires w'.procs == With(w, pid, Written).procs
    requires w'.log == w.log + [w.procs[pid].op] && w'.winners == w.winners + [pid]
    ensures LogOk(cfg, topo, w')
  {
    hide Run, Apply, AllSucceed;
    LogGrows(cfg, topo, w.log, w.procs[pid].op);
    assert pid !in w.winners;
  }

  lemma LogGrows(cfg: Config, topo: Topo, log: seq<Op>, op: Op)
    requires AllSucceed(cfg, topo, log) && Apply(cfg, Run(cfg, topo, log), op).Ok?
    ensures AllSucceed(cfg, topo, log + [op])
    ensures Run(cfg, topo, log + [op]) == Apply(cfg, Run(cfg, topo, log), op).value
  {
    hide Apply;
    RunStep(cfg, topo, log, op);
    assert (log + [op])[..|log|] == log;
    forall i | 0 <= i < |log| ensures (log + [op])[..i] == log[..i] {
    }
  }

  lemma ArriveOk(cfg: Config, topo: Topo, w: World, w': World, pid: Pid)
    requires WorldOk(cfg, topo, w) && Arrive(w, w', pid)
    ensures WorldOk(cfg, topo, w')
  {
    hide Run, Apply, AllSucceed;
    forall p | p in w'.procs ensures PcOk(cfg, w', w'.procs[p]) {
      assert p != pid ==> PcOk(cfg, w, w.procs[p]);
    }
  }

  lemma {:induction false} RunOk(cfg: Config, topo: Topo, ws: seq<World>, i: nat)
    requires IsRun(cfg, topo, ws) && i < |ws|
    ensures WorldOk(cfg, topo, ws[i])
  {
    hide Apply, LockStep, WorkStep, Arrive;
    if i > 0 {
      RunOk(cfg, topo, ws, i - 1);
      assert SomeStep(cfg, ws[i - 1], ws[i - 1 + 1]);
      var pid :| Step(cfg, ws[i - 1], ws[i], pid);
      if Arrive(ws[i - 1], ws[i], pid) {
        ArriveOk(cfg, topo, ws[i - 1], ws[i], pid);
      } else if LockStep(ws[i - 1], ws[i], pid) {
        LockStepOk(cfg, topo, ws[i - 1], ws[i], pid);
      } else {
        WorkStepOk(cfg, topo, ws[i - 1], ws[i], pid);
      }
    }
  }

  /** The lock file, when there, belongs to a process that will remove it. */
  ghost predicate OwnerOk(w: World) {
    w.locked ==> exists p :: p in w.procs && Holds(w.procs[p].pc)
  }

  lemma StepKeepsOwner(cfg: Config, w: World, w': World, pid: Pid)
    requires ProcsOk(cfg, w) && OwnerOk(w) && Step(cfg, w, w', pid)
    ensures OwnerOk(w')
  {
    hide Apply, PcOk;
    if w'.locked {
      if w.locked {
        var p :| p in w.procs && Holds(w.procs[p].pc);
        assert p in w'.procs && Holds(w'.procs[p].pc);
      } else {
        assert pid in w'.procs && Holds(w'.procs[pid].pc);
      }
    }
  }

  lemma {:induction false} RunKeepsOwner(cfg: Config, topo: Topo, ws: seq<World>, i: nat)
    requires IsRun(cfg, topo, ws) && i < |ws| && !ws[0].locked
    ensures OwnerOk(ws[i])
  {
    hide Step, LogOk, ProcsOk;
    if i > 0 {
      RunKeepsOwner(cfg, topo, ws, i - 1);
      RunOk(cfg, topo, ws, i - 1);
      assert SomeStep(cfg, ws[i - 1], ws[i - 1 + 1]);
      var pid :| Step(cfg, ws[i - 1], ws[i], pid);
      StepKeepsOwner(cfg, ws[i - 1], ws[i], pid);
    }
  }

  /** An operation that raised did so on the topology that some first part of the log had left. */
  ghost predicate FailedOnPrefix(cfg: Config, topo: Topo, log: seq<Op>, op: Op) {
    exists i :: 0 <= i <= |log| && Apply(cfg, Run(cfg, topo, log[..i]), op).Err?
  }

  ghost predicate FailuresOk(cfg: Config, topo: Topo, w: World) {
    forall p :: p in w.procs && (w.procs[p].pc == Raised || w.procs[p].pc == Done(false)) ==>
      FailedOnPrefix(cfg, topo, w.log, w.procs[p].op)
  }

  lemma FailureStays(cfg: Config, topo: Topo, log: seq<Op>, more: seq<Op>, op: Op)
    requires FailedOnPrefix(cfg, topo, log, op)
    ensures FailedOnPrefix(cfg, topo, log + more, op)
  {
    hide Apply, Run;
    var i :| 0 <= i <= |log| && Apply(cfg, Run(cfg, topo, log[..i]), op).Err?;
    assert (log + more)[..i] == log[..i];
  }

  lemma StepKeepsFailures(cfg: Config, topo: Topo, w: World, w': World, pid: Pid)
    requires WorldOk(cfg, topo, w) && FailuresOk(cfg, topo, w) && Step(cfg, w, w', pid)
    ensures FailuresOk(cfg, topo, w')
  {
    hide Run, Apply, FailedOnPrefix, AllSucceed;
    forall p | p in w'.procs && (w'.procs[p].pc == Raised || w'.procs[p].pc == Done(false))
      ensures FailedOnPrefix(cfg, topo, w'.log, w'.procs[p].op)
    {
      if p == pid && w.procs[p].pc.Loaded? {
        assert PcOk(cfg, w, w.procs[p]);
        FailedNow(cfg, topo, w.log, w.procs[p].op);
      } else {
        FailureStays(cfg, topo, w.log, w'.log[|w.log|..], w.procs[p].op);
        assert w'.log == w.log + w'.log[|w.log|..];
      }
    }
  }

  lemma FailedNow(cfg: Config, topo: Topo, log: seq<Op>, op: Op)
    requires Apply(cfg, Run(cfg, topo, log), op).Err?
    ensures FailedOnPrefix(cfg, topo, log, op)
  {
    hide Apply, Run;
    assert log[..|log|] == log;
  }

  lemma {:induction false} RunKeepsFailures(cfg: Config, topo: Topo, ws: seq<World>, i: nat)
    requires IsRun(cfg, topo, ws) && i < |ws|
    ensures FailuresOk(cfg, topo, ws[i])
  {
    hide Step, WorldOk, FailedOnPrefix;
    if i > 0 {
      RunKeepsFailures(cfg, topo, ws, i - 1);
      RunOk(cfg, topo, ws, i - 1);
      assert SomeStep(cfg, ws[i - 1], ws[i - 1 + 1]);
      var pid :| Step(cfg, ws[i - 1], ws[i], pid);
      StepKeepsFailures(cfg, topo, ws[i - 1], ws[i], pid);
    }
  }

  /**
   * After every run, whatever the interleaving: at most one process is inside; the owner always finds
   * its lock file; and the stored topology is what the written operations give in the order in which they
   * held the lock, each of them succeeding, each process that finished having its operation in that log; an
   * operation that raised fails on the topology left by some first part of the log. From
   * a start without a lock file no finished process, failed or not, leaves one behind.
   */
  lemma Serialisable(cfg: Config, topo: Topo, ws: seq<World>)
    requires IsRun(cfg, topo, ws)
    ensures var w := ws[|ws| - 1];
      && (forall p, q :: p in w.procs && q in w.procs && Holds(w.procs[p].pc) && Holds(w.procs[q].pc) ==> p == q)
      && (forall p :: p in w.procs ==> w.procs[p].pc != LockLost)
      && w.file == Run(cfg, topo, w.log) && AllSucceed(cfg, topo, w.log)
      && |w.winners| == |w.log|
      && (forall p :: p in w.procs ==> (Won(w.procs[p].pc) <==> p in w.winners))
      && (forall i, j :: 0 <= i < j < |w.winners| ==> w.winners[i] != w.winners[j])
      && (forall i :: 0 <= i < |w.log| ==> w.winners[i] in w.procs && w.log[i] == w.procs[w.winners[i]].op)
      && FailuresOk(cfg, topo, w)
      && (!ws[0].locked ==> OwnerOk(w))
  {
    hide Run, Apply, AllSucceed, SomeStep, OwnerOk, FailuresOk;
    RunOk(cfg, topo, ws, |ws| - 1);
    RunKeepsFailures(cfg, topo, ws, |ws| - 1);
    if !ws[0].locked {
      RunKeepsOwner(cfg, topo, ws, |ws| - 1);
    }
    var w := ws[|ws| - 1];
    forall p | p in w.procs ensures w.procs[p].pc != LockLost {
      assert PcOk(cfg, w, w.procs[p]);
    }
  }

  ghost predicate NobodyInside(w: World) {
    forall p :: p in w.procs ==> !Holds(w.procs[p].pc)
  }

  ghost predicate AllSeparate(topo: Topo, w: World) {
    forall p :: p in w.procs ==> Separate(topo, w.procs[p].op.c)
  }

  /** Only the process that created the lock file ever removes it; the others leave it where it is. */
  lemma OnlyOwnerRemoves(cfg: Config, topo: Topo, ws: seq<World>, i: nat, pid: Pid)
    requires IsRun(cfg, topo, ws) && i < |ws| - 1 && Step(cfg, ws[i], ws[i + 1], pid)
    requires ws[i].locked && !ws[i + 1].locked
    ensures pid in ws[i].procs && Holds(ws[i].procs[pid].pc)
    ensures NobodyInside(ws[i + 1])
  {
    hide Run, Apply;
    RunOk(cfg, topo, ws, i);
  }

  /**
   * So the topology file always keeps its ids and readable public addresses distinct, and its ports at or
   * above the lower end; a range of ports that can be read back keeps every address readable.
   */
  lemma RunsStayAllocated(cfg: Config, topo: Topo, ws: seq<World>)
    requires IsRun(cfg, topo, ws)
    requires Lawful6(cfg.ip6) && Allocated(cfg.ip6, topo)
    ensures Distinct(cfg.ip6, ws[|ws| - 1].file)
    ensures PortsFromMin(cfg, topo) ==> PortsFromMin(cfg, ws[|ws| - 1].file)
    ensures RangeOk(cfg) ==> Allocated(cfg.ip6, ws[|ws| - 1].file)
  {
    hide Run, Apply, SomeStep, Allocated, Distinct, PortsFromMin;
    Serialisable(cfg, topo, ws);
    RunKeepsAllocated(cfg, topo, ws[|ws| - 1].log);
  }

  /** And it always holds the stock topology plus exactly the contracts active after the written operations. */
  lemma RunsRefineActiveSet(cfg: Config, topo: Topo, ws: seq<World>)
    requires IsRun(cfg, topo, ws)
    requires AllSeparate(topo, ws[|ws| - 1])
    ensures Refines(cfg, topo, Active(cfg, topo, ws[|ws| - 1].log), ws[|ws| - 1].file)
  {
    hide Run, Apply, SomeStep, Separate, Refines, Active;
    Serialisable(cfg, topo, ws);
    var w := ws[|ws| - 1];
    forall op | op in w.log ensures Separate(topo, op.c) {
      var i :| 0 <= i < |w.log| && w.log[i] == op;
      assert w.winners[i] in w.procs;
    }
    ActiveSet(cfg, topo, w.log);
  }

  // ---------------------------------------------------------------- what a process does when it can

  /** Steps of one process, the others waiting. */
  ghost predicate IsPath(cfg: Config, ws: seq<World>, pid: Pid) {
    |ws| > 0 && forall i :: 0 <= i < |ws| - 1 ==> Step(cfg, ws[i], ws[i + 1], pid)
  }

  /** Where a process ends that finds the lock free: it works, and always removes its lock file. */
  ghost function Outcome(cfg: Config, w: World, pid: Pid): World
    requires pid in w.procs
  {
    match Apply(cfg, w.file, w.procs[pid].op)
    case Ok(topo) =>
      With(w, pid, Done(true)).(file := topo, log := w.log + [w.procs[pid].op], winners := w.winners + [pid])
    case Err(_) => With(w, pid, Done(false))
  }

  /**
   * A process that finds no lock file and has an attempt left goes through: its operation's result is
   * stored if there is one, the topology stays as it was otherwise.
   */
  lemma GoesThrough(cfg: Config, w: World, pid: Pid) returns (ws: seq<World>)
    requires pid in w.procs && w.procs[pid].pc.Trying? && w.procs[pid].pc.attempts > 0 && !w.locked
    ensures IsPath(cfg, ws, pid) && ws[0] == w && ws[|ws| - 1] == Outcome(cfg, w, pid)
  {
    hide Apply;
    var op := w.procs[pid].op;
    var inside := With(w, pid, Inside).(locked := true);
    var loaded := With(inside, pid, Loaded(w.file));
    var out := Outcome(cfg, w, pid);
    assert Step(cfg, w, inside, pid) && Step(cfg, inside, loaded, pid);
    match Apply(cfg, w.file, op) {
      case Ok(topo) =>
        var changed := With(loaded, pid, Changed(topo));
        var written := out.(procs := w.procs[pid := Process(op, Written)], locked := true);
        assert changed.procs[pid := Process(op, Written)] == written.procs;
        assert Step(cfg, loaded, changed, pid) && Step(cfg, changed, written, pid);
        assert written.procs[pid := Process(op, Done(true))] == out.procs;
        assert Step(cfg, written, out, pid);
        ws := [w, inside, loaded, changed, written, out];
      case Err(_) =>
        var raised := With(loaded, pid, Raised);
        assert Step(cfg, loaded, raised, pid);
        assert raised.procs[pid := Process(op, Done(false))] == out.procs;
        assert Step(cfg, raised, out, pid);
        ws := [w, inside, loaded, raised, out];
    }
  }

  /** A process that finds the lock file at each attempt gives up, and leaves it and the topology alone. */
  lemma {:induction false} GivesUp(cfg: Config, w: World, pid: Pid) returns (ws: seq<World>)
    requires pid in w.procs && w.procs[pid].pc.Trying? && w.locked
    ensures IsPath(cfg, ws, pid) && ws[0] == w && ws[|ws| - 1] == With(w, pid, GaveUp)
    ensures |ws| == 2 + if w.procs[pid].pc.attempts > 0 then w.procs[pid].pc.attempts else 0
    decreases w.procs[pid].pc.attempts
  {
    hide Apply;
    var n := w.procs[pid].pc.attempts;
    if n <= 0 {
      ws := [w, With(w, pid, GaveUp)];
      assert Step(cfg, w, ws[1], pid);
    } else {
      var next := With(w, pid, Trying(n - 1));
      assert Step(cfg, w, next, pid);
      var rest := GivesUp(cfg, next, pid);
      ws := [w] + rest;
      assert forall i :: 0 < i < |ws| ==> ws[i] == rest[i - 1];
      assert next.procs[pid := Process(w.procs[pid].op, GaveUp)] == With(w, pid, GaveUp).procs;
    }
  }
}
