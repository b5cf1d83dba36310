/**
 The bandwidth monitor of luci2-base/src/rpcd/bwmon.c: for every network device a ring of
 the differences between successive counter readings, written once a second.
 */
module Bwmon {
  import opened Options

  const HISTORY := 120
  const WORD := 0x1_0000_0000

  /** uint64_t */
  type Counter = x: int | 0 <= x < 0x1_0000_0000_0000_0000
  /** uint32_t */
  type Word = x: int | 0 <= x < WORD

  /** The four counters of a device. */
  datatype Sample = Sample(rxBytes: Counter, txBytes: Counter, rxPackets: Counter, txPackets: Counter)
  {
    function At(t: nat): Counter
      requires t < 4
    {
      if t == 0 then rxBytes else if t == 1 then txBytes else if t == 2 then rxPackets else txPackets
    }
  }

  const TYPES := ["rx_bytes", "tx_bytes", "rx_packets", "tx_packets"]

  /** The subtraction wraps at 64 bits and the cast keeps 32 of them. */
  function Difference(prev: Counter, value: Counter): Word {
    (value - prev) % 0x1_0000_0000_0000_0000 % WORD
  }

  function Differences(c: seq<Counter>): (d: seq<Word>)
    ensures |d| == if c == [] then 0 else |c| - 1
  {
    if c == [] then []
    else seq(|c| - 1, i requires 0 <= i < |c| - 1 => Difference(c[i], c[i + 1]))
  }

  /** Everything a ring ever held: the zeros of calloc and then the differences. */
  function Written(c: seq<Counter>): (w: seq<Word>)
    ensures |w| == HISTORY + |Differences(c)|
  {
    seq(HISTORY, _ => 0) + Differences(c)
  }

  /** The last entries of that, oldest first. */
  function History(c: seq<Counter>): (h: seq<Word>)
    ensures |h| == HISTORY
  {
    Written(c)[|Differences(c)|..]
  }

  /** The readings of one counter. */
  function Readings(samples: seq<Sample>, t: nat): (c: seq<Counter>)
    requires t < 4
    ensures |c| == |samples|
  {
    seq(|samples|, i requires 0 <= i < |samples| => samples[i].At(t))
  }

  function Position(n: nat): int {
    if n == 0 then -1 else (n - 1) % HISTORY
  }

  /** A row under its name. */
  datatype Row = Row(name: string, values: seq<Word>)

  type Table = seq<Row>

  /** The history of each of the four counters, under its name. */
  function Dump(samples: seq<Sample>): (table: Table)
    ensures |table| == 4
  {
    seq(4, t requires 0 <= t < 4 => Row(TYPES[t], History(Readings(samples, t))))
  }

  /** struct rpc_bwmon_device */
  class Device {
    var pos: int
    const prev: array<Counter>
    const values: array2<Word>

    /** get_device, where it allocates. */
    constructor ()
      ensures Holds([]) && fresh(Parts())
    {
      pos := -1;
      prev := new Counter[4](_ => 0);
      values := new Word[4, HISTORY]((_, _) => 0);
    }

    ghost function Parts(): set<object> {
      {this, prev, values}
    }

    ghost predicate Shaped() {
      prev.Length == 4 && values.Length0 == 4 && values.Length1 == HISTORY
    }

    /** Row `t` of the ring and its last reading, after the readings `c`. */
    ghost predicate Ring(t: nat, c: seq<Counter>)
      requires Shaped() && t < 4
      reads prev, values
    {
      && prev[t] == (if c == [] then 0 else c[|c| - 1])
      && forall i :: |Differences(c)| <= i < |Written(c)| ==> values[t, i % HISTORY] == Written(c)[i]
    }

    ghost predicate Rings(samples: seq<Sample>)
      requires Shaped()
      reads prev, values
    {
      forall t :: 0 <= t < 4 ==> Ring(t, Readings(samples, t))
    }

    /** The device after `samples`. */
    ghost predicate Holds(samples: seq<Sample>)
      reads Parts()
    {
      Shaped() && pos == Position(|samples|) && Rings(samples)
    }

    /** put_value */
    method PutValue(t: nat, value: Counter, ghost c: seq<Counter>)
      requires Shaped() && t < 4 && Ring(t, c) && pos == Position(|c|)
      modifies prev, values
      ensures Ring(t, c + [value])
      ensures forall u: nat, d :: u < 4 && u != t && old(Ring(u, d)) ==> Ring(u, d)
    {
      if pos >= 0 {
        values[t, pos] := Difference(prev[t], value);
      }
      prev[t] := value;
      hide Difference;
      WrittenSnoc(c, value);
      forall i | |Differences(c + [value])| <= i < |Written(c + [value])|
        ensures values[t, i % HISTORY] == Written(c + [value])[i]
      {
        if c != [] {
          SlotReused(|c|, i);
        }
      }
      forall u: nat, d | u < 4 && u != t && old(Ring(u, d))
        ensures Ring(u, d)
      {
      }
    }

    /** The part of rpc_bwmon_collect for one device. */
    method Collect(sample: Sample, ghost samples: seq<Sample>)
      requires Holds(samples)
      modifies Parts()
      ensures Holds(samples + [sample])
    {
      hide Ring, Differences, Written;
      forall t | 0 <= t < 4
        ensures Readings(samples + [sample], t) == Readings(samples, t) + [sample.At(t)]
      {
      }
      PutValue(0, sample.rxBytes, Readings(samples, 0));
      PutValue(1, sample.txBytes, Readings(samples, 1));
      PutValue(2, sample.rxPackets, Readings(samples, 2));
      PutValue(3, sample.txPackets, Readings(samples, 3));
      pos := (pos + 1) % HISTORY;
    }

    lemma RowShown(t: nat, c: seq<Counter>, j: nat)
      requires Shaped() && t < 4 && Ring(t, c) && c != [] && j < HISTORY
      ensures values[t, (Position(|c|) + j) % HISTORY] == History(c)[j]
    {
      hide Differences, Written;
      SlotOf(|c| - 1, j);
      assert History(c)[j] == Written(c)[|c| - 1 + j];
    }

    /** rpc_bwmon_dump_stats */
    method DumpStats(ghost samples: seq<Sample>) returns (table: Table)
      requires Holds(samples) && samples != []
      ensures table == Dump(samples)
    {
      table := [];
      hide Ring, History, Readings, Dump, Position;
      for i := 0 to 4
        invariant |table| == i
        invariant forall t :: 0 <= t < i ==> table[t] == Row(TYPES[t], History(Readings(samples, t)))
      {
        ghost var c := Readings(samples, i);
        var row: seq<Word> := [];
        for j := 0 to HISTORY
          invariant row == History(c)[..j]
        {
          RowShown(i, c, j);
          row := row + [values[i, (pos + j) % HISTORY]];
        }
        assert row == History(c);
        table := table + [Row(TYPES[i], row)];
      }
      DumpIs(samples, table);
    }
  }

  lemma DumpIs(samples: seq<Sample>, table: Table)
    requires |table| == 4 && forall t :: 0 <= t < 4 ==> table[t] == Row(TYPES[t], History(Readings(samples, t)))
    ensures table == Dump(samples)
  {
  }

  lemma WrittenSnoc(c: seq<Counter>, value: Counter)
    ensures Written(c + [value]) == Written(c) + if c == [] then [] else [Difference(c[|c| - 1], value)]
  {
  }

  /** Slot (n - 1) % 120 is the one entry n + 119 takes, and no other of the last 120. */
  lemma SlotReused(n: nat, i: nat)
    requires 0 < n <= i < n + HISTORY
    ensures i % HISTORY == (n - 1) % HISTORY <==> i == n + HISTORY - 1
  {
  }

  lemma SlotOf(n: nat, j: nat)
    ensures (n % HISTORY + j) % HISTORY == (n + j) % HISTORY
  {
  }

  function Sum(w: seq<Word>): nat {
    if w == [] then 0 else w[0] + Sum(w[1..])
  }

  /** The newest entries add up to how far the counter went, up to multiples of 2^32. */
  lemma {:induction false} NewestAddUp(c: seq<Counter>, k: nat)
    requires k <= HISTORY && k < |c|
    ensures Sum(History(c)[HISTORY - k..]) % WORD == (c[|c| - 1] - c[|c| - 1 - k]) % WORD
    decreases k
  {
    hide History, Difference;
    var newest := History(c)[HISTORY - k..];
    if k > 0 {
      assert newest[1..] == History(c)[HISTORY - (k - 1)..];
      NewestAddUp(c, k - 1);
      HistoryAt(c, k);
      AddModulo(c[|c| - 1 - k], c[|c| - k], c[|c| - 1], Sum(newest[1..]));
    } else {
      assert newest == [];
    }
  }

  /** The k-th entry from the end is the k-th difference from the end, or zero if there have not been so many. */
  lemma HistoryAt(c: seq<Counter>, k: nat)
    requires 0 < k <= HISTORY
    ensures History(c)[HISTORY - k] == if k < |c| then Difference(c[|c| - 1 - k], c[|c| - k]) else 0
  {
    hide Difference;
    if k < |c| {
      assert Written(c)[HISTORY + |c| - 1 - k] == Differences(c)[|c| - 1 - k];
    }
  }

  /** Each row has the name of the counter it is the history of. */
  lemma NamedRows(samples: seq<Sample>)
    ensures var n := |samples|;
            Dump(samples) == [
              Row("rx_bytes", History(seq(n, i requires 0 <= i < n => samples[i].rxBytes))),
              Row("tx_bytes", History(seq(n, i requires 0 <= i < n => samples[i].txBytes))),
              Row("rx_packets", History(seq(n, i requires 0 <= i < n => samples[i].rxPackets))),
              Row("tx_packets", History(seq(n, i requires 0 <= i < n => samples[i].txPackets)))]
  {
    hide History;
    var n := |samples|;
    assert Readings(samples, 0) == seq(n, i requires 0 <= i < n => samples[i].rxBytes);
    assert Readings(samples, 1) == seq(n, i requires 0 <= i < n => samples[i].txBytes);
    assert Readings(samples, 2) == seq(n, i requires 0 <= i < n => samples[i].rxPackets);
    assert Readings(samples, 3) == seq(n, i requires 0 <= i < n => samples[i].txPackets);
  }

  lemma AddModulo(a: Counter, b: Counter, e: Counter, sum: nat)
    requires sum % WORD == (e - b) % WORD
    ensures (Difference(a, b) + sum) % WORD == (e - a) % WORD
  {
  }

  // ----- all devices

  /** One entry of the directory of devices, with what is read of it. */
  datatype Entry = Entry(ifname: string, up: bool, sample: Sample)

  /** The samples a device is given: none until it is first seen up, and then all. */
  function Recorded(entries: seq<Entry>, ifname: string): seq<Sample> {
    if entries == [] then []
    else
      var e, before := entries[|entries| - 1], Recorded(entries[..|entries| - 1], ifname);
      if e.ifname == ifname && (e.up || before != []) then before + [e.sample] else before
  }

  /** The same in one go: the samples from the first time it is seen up. */
  function FirstUp(entries: seq<Entry>, ifname: string): (n: nat)
    ensures n <= |entries|
    ensures n < |entries| ==> entries[n].ifname == ifname && entries[n].up
    ensures forall i :: 0 <= i < n ==> !(entries[i].ifname == ifname && entries[i].up)
  {
    if entries == [] then 0
    else if entries[0].ifname == ifname && entries[0].up then 0
    else 1 + FirstUp(entries[1..], ifname)
  }

  function Samples(entries: seq<Entry>, ifname: string): seq<Sample> {
    if entries == [] then []
    else (if entries[0].ifname == ifname then [entries[0].sample] else []) + Samples(entries[1..], ifname)
  }

  /** What is shown of a device after `entries`. */
  function Shown(entries: seq<Entry>, ifname: string): Option<Table> {
    var samples := Recorded(entries, ifname);
    if samples == [] then None else Some(Dump(samples))
  }

  class Monitor {
    var devices: map<string, Device>
    ghost var parts: set<object>

    constructor ()
      ensures Holds([]) && fresh(parts)
    {
      devices, parts := map[], {};
    }

    ghost predicate Apart()
      reads this
    {
      && this !in parts
      && (forall a :: a in devices ==> devices[a].Parts() <= parts)
      && forall a, b :: a in devices && b in devices && a != b ==> devices[a].Parts() !! devices[b].Parts()
    }

    /** Every device there is holds what has been recorded for it. */
    ghost predicate Holds(entries: seq<Entry>)
      reads this, parts
    {
      && Apart()
      && (forall a :: a in devices <==> Recorded(entries, a) != [])
      && forall a :: a in devices ==> devices[a].Holds(Recorded(entries, a))
    }

    /** get_device */
    method GetDevice(ifname: string, create: bool, ghost entries: seq<Entry>) returns (dev: Device?)
      requires Holds(entries)
      modifies this
      ensures Apart() && fresh(parts - old(parts))
      ensures dev == null <==> Recorded(entries, ifname) == [] && !create
      ensures devices == if dev == null then old(devices) else old(devices)[ifname := dev]
      ensures forall a :: a in devices ==> devices[a].Holds(Recorded(entries, a))
    {
      hide Recorded, Device.Holds, Device.Parts;
      if ifname in devices {
        dev := devices[ifname];
      } else if create {
        dev := new Device();
        devices := devices[ifname := dev];
        parts := parts + dev.Parts();
      } else {
        dev := null;
      }
    }

    /** One turn of the loop in rpc_bwmon_collect. */
    method Visit(e: Entry, ghost entries: seq<Entry>)
      requires Holds(entries)
      modifies this, parts
      ensures Holds(entries + [e]) && fresh(parts - old(parts))
    {
      hide Recorded, Device.Holds, Device.Parts;
      RecordedSnoc(entries, e);
      var dev := GetDevice(e.ifname, e.up, entries);
      if dev == null { return; }
      dev.Collect(e.sample, Recorded(entries, e.ifname));
    }

    /** rpc_bwmon_collect, given what is read of the directory. */
    method Collect(scan: seq<Entry>, ghost entries: seq<Entry>)
      requires Holds(entries)
      modifies this, parts
      ensures Holds(entries + scan) && fresh(parts - old(parts))
    {
      hide Holds;
      assert entries + scan[..0] == entries;
      for i := 0 to |scan|
        invariant Holds(entries + scan[..i]) && fresh(parts - old(parts))
      {
        Visit(scan[i], entries + scan[..i]);
        assert entries + scan[..i] + [scan[i]] == entries + scan[..i + 1];
      }
      assert scan[..|scan|] == scan;
    }

    /** rpc_bwmon_stats for one device */
    method DeviceStats(ifname: string, ghost entries: seq<Entry>) returns (r: Option<Table>)
      requires Holds(entries)
      ensures r == Shown(entries, ifname)
    {
      hide Recorded, Device.Holds, Device.Parts, Dump;
      if ifname !in devices {
        return None;
      }
      var table := devices[ifname].DumpStats(Recorded(entries, ifname));
      r := Some(table);
    }

    /** rpc_bwmon_stats for all devices */
    method Stats(ghost entries: seq<Entry>) returns (r: map<string, Table>)
      requires Holds(entries)
      ensures forall a :: if a in r then Shown(entries, a) == Some(r[a]) else Shown(entries, a) == None
    {
      hide Recorded, Device.Holds, Device.Parts, Dump;
      r := map[];
      var left := devices.Keys;
      while left != {}
        invariant left <= devices.Keys
        invariant r.Keys == devices.Keys - left
        invariant forall a :: a in r ==> Shown(entries, a) == Some(r[a])
      {
        var a :| a in left;
        var table := devices[a].DumpStats(Recorded(entries, a));
        r := r[a := table];
        left := left - {a};
      }
    }
  }

  lemma RecordedSnoc(entries: seq<Entry>, e: Entry)
    ensures forall a :: Recorded(entries + [e], a) ==
                        var before := Recorded(entries, a);
                        if e.ifname == a && (e.up || before != []) then before + [e.sample] else before
  {
    assert (entries + [e])[..|entries|] == entries;
  }

  lemma {:induction false} SamplesSnoc(entries: seq<Entry>, e: Entry, a: string)
    ensures Samples(entries + [e], a) == Samples(entries, a) + if e.ifname == a then [e.sample] else []
  {
    if entries != [] {
      SamplesSnoc(entries[1..], e, a);
      assert (entries + [e])[1..] == entries[1..] + [e];
    } else {
      assert (entries + [e])[1..] == [];
    }
  }

  /** A device is recorded from the first time it is seen up, and then whether it is up or not. */
  lemma {:induction false} RecordedFromFirstUp(entries: seq<Entry>, a: string)
    ensures Recorded(entries, a) == Samples(entries[FirstUp(entries, a)..], a)
    ensures Recorded(entries, a) != [] <==> exists e :: e in entries && e.ifname == a && e.up
    decreases |entries|
  {
    hide Samples, FirstUp;
    var n := FirstUp(entries, a);
    if entries == [] {
      assert entries[n..] == [];
      NoSamples(a);
    } else {
      var before, e := entries[..|entries| - 1], entries[|entries| - 1];
      assert entries == before + [e];
      RecordedFromFirstUp(before, a);
      RecordedSnoc(before, e);
      var m := FirstUp(before, a);
      SamplesSnoc(before[m..], e, a);
      NoSamples(a);
      if m < |before| {
        assert n == m;
        assert entries[n..] == before[m..] + [e];
      } else {
        assert before[m..] == [];
        if n < |entries| {
          assert entries[n..] == before[m..] + [e];
        } else {
          assert entries[n..] == [];
        }
      }
    }
  }

  lemma NoSamples(a: string)
    ensures Samples([], a) == []
  {
  }
}
