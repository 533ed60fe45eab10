/** The per-CPU counters: what the data path adds up and what the host reads back. */
module Counters {
  import opened Outcomes
  import opened Octets
  import opened Packet

  const WRAP := 0x1_0000_0000_0000_0000

  type u64 = x: nat | x < 0x1_0000_0000_0000_0000

  datatype Counter = Counter(bytes: u64, packets: u64)

  const ZERO := Counter(0, 0)

  function Add(a: u64, b: nat): u64 {
    (a + b) % WRAP
  }

  function Plus(a: Counter, b: Counter): Counter {
    Counter(Add(a.bytes, b.bytes), Add(a.packets, b.packets))
  }

  /** Sum over all CPUs, wrapping like the fields themselves. */
  function Total(values: seq<Counter>): Counter {
    if |values| == 0 then ZERO else Plus(Total(values[..|values| - 1]), values[|values| - 1])
  }

  /** Sizes of the packets counted for a key since it was inserted. */
  function SumSizes(sizes: seq<nat>): nat {
    if |sizes| == 0 then 0 else SumSizes(sizes[..|sizes| - 1]) + sizes[|sizes| - 1]
  }

  function Counted(sizes: seq<nat>): Counter {
    Counter(SumSizes(sizes) % WRAP, |sizes| % WRAP)
  }

  /** One more packet in this CPU's counter; those of the other CPUs stay. */
  function Bump(values: seq<Counter>, cpu: nat, size: nat): seq<Counter>
    requires cpu < |values|
  {
    values[cpu := Counter(Add(values[cpu].bytes, size), Add(values[cpu].packets, 1))]
  }

  /** A new entry of the map: zero for every CPU. */
  function Zeros(cpus: nat): seq<Counter> {
    seq(cpus, i => ZERO)
  }

  /** Counting one more packet on one CPU adds it to the sum over all of them. */
  lemma {:induction false} TotalOfUpdate(values: seq<Counter>, cpu: nat, size: nat)
    requires cpu < |values|
    ensures Total(Bump(values, cpu, size)) == Counter(Add(Total(values).bytes, size), Add(Total(values).packets, 1))
  {
    var n := |values| - 1;
    var c := values[cpu];
    var more := Counter(Add(c.bytes, size), Add(c.packets, 1));
    var updated := values[cpu := more];
    if cpu == n {
      assert updated[..n] == values[..n];
      AddMoves(Total(values[..n]).bytes, c.bytes, size);
      AddMoves(Total(values[..n]).packets, c.packets, 1);
    } else {
      assert updated[..n] == values[..n][cpu := more];
      TotalOfUpdate(values[..n], cpu, size);
      AddSwaps(Total(values[..n]).bytes, values[n].bytes, size);
      AddSwaps(Total(values[..n]).packets, values[n].packets, 1);
    }
  }

  lemma AddMoves(a: u64, b: u64, n: nat)
    ensures Add(a, Add(b, n)) == Add(Add(a, b), n)
  {
    var x, y := (b + n) / WRAP, (a + b) / WRAP;
    assert b + n == x * WRAP + Add(b, n) && a + b == y * WRAP + Add(a, b);
    Wraps(a + Add(b, n), Add(a, b) + n, y - x);
  }

  lemma AddSwaps(a: u64, b: u64, n: nat)
    ensures Add(Add(a, n), b) == Add(Add(a, b), n)
  {
    var x, y := (a + n) / WRAP, (a + b) / WRAP;
    assert a + n == x * WRAP + Add(a, n) && a + b == y * WRAP + Add(a, b);
    Wraps(Add(a, n) + b, Add(a, b) + n, y - x);
  }

  lemma Wraps(m: int, n: int, k: int)
    requires m == n + k * WRAP
    ensures m % WRAP == n % WRAP
  {
    var q := n / WRAP;
    assert n == q * WRAP + n % WRAP;
    assert m == (q + k) * WRAP + n % WRAP;
    QuotientIs(m, q + k, n % WRAP);
  }

  lemma QuotientIs(m: int, q: int, r: int)
    requires m == q * WRAP + r && 0 <= r < WRAP
    ensures m % WRAP == r
  {
    var d := m / WRAP - q;
    assert m == (q + d) * WRAP + m % WRAP;
    assert d * WRAP == r - m % WRAP;
  }

  lemma {:induction false} TotalOfZeros(n: nat)
    ensures Total(Zeros(n)) == ZERO
  {
    if n > 0 {
      assert Zeros(n)[..n - 1] == Zeros(n - 1);
      TotalOfZeros(n - 1);
    }
  }

  /** The map shared by all CPUs, and the events posted for new keys. */
  class DataPath {
    const cpus: nat
    const ports: PortFilter
    var counters: map<nat, seq<Counter>>
    var events: seq<Bytes>
    /** For each key in the map, the sizes of the packets counted for it since it was inserted. */
    ghost var since: map<nat, seq<nat>>

    ghost predicate Valid()
      reads this
    {
      && since.Keys == counters.Keys
      && forall key :: key in counters ==> |counters[key]| == cpus && Total(counters[key]) == Counted(since[key])
    }

    constructor (cpus: nat, ports: PortFilter)
      ensures Valid() && counters == map[] && events == [] && this.cpus == cpus && this.ports == ports
    {
      this.cpus, this.ports := cpus, ports;
      counters, events, since := map[], [], map[];
    }

    /**
     * One packet on one CPU. `reserved` says whether the ring buffer had room for an event. A packet that
     * does not parse changes nothing; a known key has this CPU's counter increased; a new key starts with
     * this packet and is reported.
     */
    method Count(cpu: nat, packet: Bytes, prev: bool, reserved: bool)
      requires Valid() && cpu < cpus
      modifies this
      ensures Valid()
      ensures match HopKey(packet, ports, prev)
        case None => counters == old(counters) && events == old(events) && since == old(since)
        case Some(key) =>
          && counters == old(counters)[key := Bump(if key in old(counters) then old(counters)[key] else Zeros(cpus),
                                                   cpu, |packet|)]
          && since == old(since)[key := (if key in old(since) then old(since)[key] else []) + [|packet|]]
          && events == (if key in old(counters) || !reserved then old(events)
                        else old(events) + [EventBytes(key)])
    {
      hide HopKey, Total, Counted, Bump, Zeros, EventBytes;
      var found := ExtractKey(packet, ports, prev);
      if found.None? {
        return;
      }
      var key := found.value;
      var row := Zeros(cpus);
      ghost var before := [];
      if key in counters {
        row, before := counters[key], since[key];
      } else {
        NewEntry(cpus);
        if reserved {
          events := events + [EventBytes(key)];
        }
      }
      OneMore(row, before, cpu, |packet|);
      counters := counters[key := Bump(row, cpu, |packet|)];
      since := since[key := before + [|packet|]];
    }

    /** The map drops a key to make room. */
    method Evict(key: nat)
      requires Valid()
      modifies this
      ensures Valid() && counters == old(counters) - {key} && since == old(since) - {key} && events == old(events)
    {
      counters := counters - {key};
      since := since - {key};
    }

    /** The host's lookup and sum over CPUs: exactly what was counted since the key was inserted. */
    method ReadPerCpuCounters(key: nat) returns (total: Option<Counter>)
      requires Valid()
      ensures total.Some? <==> key in counters
      ensures total.Some? ==> total.value == Counted(since[key])
    {
      if key !in counters {
        return None;
      }
      var values := counters[key];
      var sum := ZERO;
      for i := 0 to |values|
        invariant sum == Total(values[..i])
      {
        assert values[..i + 1][..i] == values[..i];
        sum := Counter(Add(sum.bytes, values[i].bytes), Add(sum.packets, values[i].packets));
      }
      assert values[..|values|] == values;
      return Some(sum);
    }
  }

  lemma NewEntry(cpus: nat)
    ensures |Zeros(cpus)| == cpus && Total(Zeros(cpus)) == Counted([])
  {
    TotalOfZeros(cpus);
  }

  lemma OneMore(row: seq<Counter>, sizes: seq<nat>, cpu: nat, size: nat)
    requires cpu < |row| && Total(row) == Counted(sizes)
    ensures |Bump(row, cpu, size)| == |row| && Total(Bump(row, cpu, size)) == Counted(sizes + [size])
  {
    hide Total, Counted, Add;
    TotalOfUpdate(row, cpu, size);
    CountedMore(sizes, size);
  }

  lemma CountedMore(sizes: seq<nat>, size: nat)
    ensures Counted(sizes + [size]) == Counter(Add(Counted(sizes).bytes, size), Add(Counted(sizes).packets, 1))
  {
    assert (sizes + [size])[..|sizes|] == sizes;
    var s := SumSizes(sizes);
    Wraps(s + size, s % WRAP + size, s / WRAP);
    Wraps(|sizes| + 1, |sizes| % WRAP + 1, |sizes| / WRAP);
  }
}
