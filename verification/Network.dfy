/**
 Alias devices of luci2-base/htdocs/luci2/network.js: an alias names an interface, the
 interface names the device it runs on, and that may be an alias again.
 */
module Network {
  import opened Options

  datatype Kind = Alias | Ethernet | Tunnel | Bridge | Wifi | Vlan

  /** An entry of `deviceObjects`, as far as aliases are concerned. */
  datatype DeviceObject = DeviceObject(ifname: string, kind: Kind, sid: Option<string>)

  /** An entry of `interfaceObjects`. */
  datatype InterfaceObject = InterfaceObject(name: string, l3dev: Option<string>)

  datatype Objects = Objects(devices: map<string, DeviceObject>, interfaces: map<string, InterfaceObject>)
  {
    /** A device is entered under its own name. */
    ghost predicate Keyed() {
      forall k :: k in devices ==> devices[k].ifname == k
    }
  }

  /** The property a missing name stands for. */
  function Key(name: Option<string>): string {
    if name.Some? then name.value else "undefined"
  }

  function Lookup<V>(m: map<string, V>, k: string): Option<V> {
    if k in m then Some(m[k]) else None
  }

  /** The device that the interface of `d` runs on. */
  function Link(o: Objects, d: DeviceObject): Option<DeviceObject> {
    var ifc := Lookup(o.interfaces, Key(d.sid));
    if ifc.None? then None else Lookup(o.devices, Key(ifc.value.l3dev))
  }

  /** The device `k` links away from the one called `ifname`. */
  function At(o: Objects, ifname: string, k: nat): Option<DeviceObject> {
    if k == 0 then Lookup(o.devices, ifname)
    else
      var d := At(o, ifname, k - 1);
      if d.None? then None else Link(o, d.value)
  }

  /** The first `n` devices on the way are all there, and aliases. */
  ghost predicate AliasesUpTo(o: Objects, ifname: string, n: nat) {
    forall i :: 0 <= i < n ==> At(o, ifname, i).Some? && At(o, ifname, i).value.kind.Alias?
  }

  /** The first device on the way that is not an alias is `k` links away. */
  ghost predicate Resolves(o: Objects, ifname: string, k: nat) {
    AliasesUpTo(o, ifname, k) && At(o, ifname, k).Some? && !At(o, ifname, k).value.kind.Alias?
  }

  /** The way ends at a name that nothing is known of. */
  ghost predicate Dangles(o: Objects, ifname: string) {
    exists k: nat :: AliasesUpTo(o, ifname, k) && At(o, ifname, k).None?
  }

  /** The way comes back to an alias it has passed. */
  ghost predicate Cycles(o: Objects, ifname: string) {
    exists k: nat, i: nat :: i < k && AliasesUpTo(o, ifname, k) && At(o, ifname, i) == At(o, ifname, k)
  }

  class Network {
    var deviceObjects: map<string, DeviceObject>
    var interfaceObjects: map<string, InterfaceObject>

    function State(): Objects
      reads this
    {
      Objects(deviceObjects, interfaceObjects)
    }

    constructor ()
      ensures State() == Objects(map[], map[])
    {
      deviceObjects, interfaceObjects := map[], map[];
    }

    /** getDeviceObject */
    method GetDeviceObject(ifname: string) returns (d: DeviceObject)
      requires State().Keyed()
      modifies this`deviceObjects
      ensures State().Keyed() && d.ifname == ifname
      ensures ifname in old(deviceObjects) ==> deviceObjects == old(deviceObjects) && d == deviceObjects[ifname]
      ensures ifname !in old(deviceObjects) ==>
                && d == DeviceObject(ifname, if |ifname| > 0 && ifname[0] == '@' then Alias else Ethernet, None)
                && deviceObjects == old(deviceObjects)[ifname := d]
    {
      var alias := |ifname| > 0 && ifname[0] == '@';
      if ifname !in deviceObjects {
        deviceObjects := deviceObjects[ifname := DeviceObject(ifname, if alias then Alias else Ethernet, None)];
      }
      d := deviceObjects[ifname];
    }

    /** resolveAlias, with the name of the device it gives. */
    method ResolveAlias(ifname: string) returns (r: Option<string>)
      requires State().Keyed()
      ensures Answers(State(), ifname, r)
    {
      hide Answers, At, Passed;
      ghost var o, n: nat := State(), 0;
      var dev := Lookup(deviceObjects, ifname);
      var seen: set<string> := {};
      AtStart(o, ifname);
      while dev.Some? && dev.value.kind.Alias?
        invariant dev == At(o, ifname, n) && Passed(o, ifname, n, seen)
        invariant dev.Some? ==> Lookup(deviceObjects, dev.value.ifname) == dev
        decreases |deviceObjects.Keys - seen|
      {
        if dev.value.ifname in seen {
          ComesBack(o, ifname, n, seen);
          return None;
        }
        ghost var left := deviceObjects.Keys - seen;
        GoesOn(o, ifname, n, seen);
        seen := seen + {dev.value.ifname};
        assert deviceObjects.Keys - seen == left - {dev.value.ifname};
        var ifc := Lookup(interfaceObjects, Key(dev.value.sid));
        dev := if ifc.Some? then Lookup(deviceObjects, Key(ifc.value.l3dev)) else None;
        n := n + 1;
      }
      Arrives(o, ifname, n, seen);
      if dev.None? { return None; }
      r := Some(dev.value.ifname);
    }
  }

  /** The device is found if the way resolves, and it is that one; nothing is found exactly if the way dangles or cycles. */
  ghost predicate Answers(o: Objects, ifname: string, r: Option<string>) {
    && (r.Some? <==> exists k: nat :: Resolves(o, ifname, k))
    && (forall k: nat :: Resolves(o, ifname, k) ==> r == Some(At(o, ifname, k).value.ifname))
    && (r.None? <==> Dangles(o, ifname) || Cycles(o, ifname))
  }

  /** `n` aliases have been passed, and `seen` are their names. */
  ghost predicate Passed(o: Objects, ifname: string, n: nat, seen: set<string>) {
    && AliasesUpTo(o, ifname, n)
    && (forall i :: 0 <= i < n ==> At(o, ifname, i).value.ifname in seen)
    && forall s :: s in seen ==> s in o.devices && exists i: nat :: i < n && At(o, ifname, i) == Some(o.devices[s])
  }

  lemma AtStart(o: Objects, ifname: string)
    ensures At(o, ifname, 0) == Lookup(o.devices, ifname) && Passed(o, ifname, 0, {})
  {
  }

  lemma GoesOn(o: Objects, ifname: string, n: nat, seen: set<string>)
    requires Passed(o, ifname, n, seen) && At(o, ifname, n).Some? && At(o, ifname, n).value.kind.Alias?
    requires Lookup(o.devices, At(o, ifname, n).value.ifname) == At(o, ifname, n)
    ensures Passed(o, ifname, n + 1, seen + {At(o, ifname, n).value.ifname})
    ensures At(o, ifname, n + 1) == Link(o, At(o, ifname, n).value)
  {
    hide Link, At;
    assert At(o, ifname, n + 1) == Link(o, At(o, ifname, n).value) by {
      LinkedAt(o, ifname, n);
    }
    var seen' := seen + {At(o, ifname, n).value.ifname};
    forall s | s in seen'
      ensures s in o.devices && exists i: nat :: i < n + 1 && At(o, ifname, i) == Some(o.devices[s])
    {
      if s in seen {
        var i: nat :| i < n && At(o, ifname, i) == Some(o.devices[s]);
      }
    }
  }

  lemma LinkedAt(o: Objects, ifname: string, n: nat)
    requires At(o, ifname, n).Some?
    ensures At(o, ifname, n + 1) == Link(o, At(o, ifname, n).value)
  {
  }

  lemma ComesBack(o: Objects, ifname: string, n: nat, seen: set<string>)
    requires Passed(o, ifname, n, seen) && At(o, ifname, n).Some? && At(o, ifname, n).value.ifname in seen
    requires Lookup(o.devices, At(o, ifname, n).value.ifname) == At(o, ifname, n)
    ensures Cycles(o, ifname) && Answers(o, ifname, None)
  {
    hide At;
    OnceMore(o, ifname, n, seen);
    hide Passed, Cycles, Dangles, Resolves;
    OneOutcome(o, ifname);
  }

  lemma OnceMore(o: Objects, ifname: string, n: nat, seen: set<string>)
    requires Passed(o, ifname, n, seen) && At(o, ifname, n).Some? && At(o, ifname, n).value.ifname in seen
    requires Lookup(o.devices, At(o, ifname, n).value.ifname) == At(o, ifname, n)
    ensures Cycles(o, ifname)
  {
    hide At;
    var i: nat :| i < n && At(o, ifname, i) == Some(o.devices[At(o, ifname, n).value.ifname]);
  }

  lemma Arrives(o: Objects, ifname: string, n: nat, seen: set<string>)
    requires Passed(o, ifname, n, seen) && (At(o, ifname, n).Some? ==> !At(o, ifname, n).value.kind.Alias?)
    ensures Answers(o, ifname, if At(o, ifname, n).None? then None else Some(At(o, ifname, n).value.ifname))
  {
    hide At;
    OneOutcome(o, ifname);
    assert At(o, ifname, n).Some? ==> Resolves(o, ifname, n);
  }

  /** Once the way is on a cycle it never leaves it. */
  lemma {:induction false} OnTheCycle(o: Objects, ifname: string, i: nat, n: nat, k: nat)
    requires i < n && At(o, ifname, i) == At(o, ifname, n)
    ensures exists m: nat :: m < n && At(o, ifname, m) == At(o, ifname, k)
  {
    if k >= n {
      OnTheCycle(o, ifname, i, n, k - 1);
      var m: nat :| m < n && At(o, ifname, m) == At(o, ifname, k - 1);
      assert At(o, ifname, m + 1) == At(o, ifname, k);
    }
  }

  /** Nothing lies beyond a dangling name. */
  lemma {:induction false} Beyond(o: Objects, ifname: string, n: nat, k: nat)
    requires At(o, ifname, n).None? && n <= k
    ensures At(o, ifname, k).None?
  {
    if n < k {
      Beyond(o, ifname, n, k - 1);
    }
  }

  /** A way either resolves, at one place, or it dangles or cycles, and then no device
      on it, however far, is anything but an alias. */
  lemma OneOutcome(o: Objects, ifname: string)
    ensures forall j: nat, k: nat :: Resolves(o, ifname, j) && Resolves(o, ifname, k) ==> j == k
    ensures Dangles(o, ifname) || Cycles(o, ifname) ==>
              forall k: nat :: At(o, ifname, k).Some? ==> At(o, ifname, k).value.kind.Alias?
    ensures forall k: nat :: Resolves(o, ifname, k) ==> !Dangles(o, ifname) && !Cycles(o, ifname)
    ensures !(Dangles(o, ifname) && Cycles(o, ifname))
  {
    if Dangles(o, ifname) {
      var n: nat :| AliasesUpTo(o, ifname, n) && At(o, ifname, n).None?;
      forall k: nat | At(o, ifname, k).Some?
        ensures At(o, ifname, k).value.kind.Alias? && k < n
      {
        if n <= k {
          Beyond(o, ifname, n, k);
        }
      }
    }
    if Cycles(o, ifname) {
      var n: nat, i: nat :| i < n && AliasesUpTo(o, ifname, n) && At(o, ifname, i) == At(o, ifname, n);
      forall k: nat
        ensures At(o, ifname, k).Some? && At(o, ifname, k).value.kind.Alias?
      {
        OnTheCycle(o, ifname, i, n, k);
      }
    }
  }

  // ----- ways written out

  /** Each name is that of a device whose interface runs on the device of the next name. */
  ghost predicate Leads(o: Objects, names: seq<string>, sids: seq<string>) {
    && |names| == |sids| + 1
    && forall i :: 0 <= i < |sids| ==>
         && names[i] in o.devices && o.devices[names[i]].sid == Some(sids[i])
         && sids[i] in o.interfaces && o.interfaces[sids[i]].l3dev == Some(names[i + 1])
  }

  lemma {:induction false} WayFollowed(o: Objects, names: seq<string>, sids: seq<string>, k: nat)
    requires Leads(o, names, sids) && k <= |sids|
    ensures At(o, names[0], k) == Lookup(o.devices, names[k])
  {
    if k > 0 {
      WayFollowed(o, names, sids, k - 1);
    }
  }

  /** Along such a way of aliases the device of the last name is the answer if it is no alias; if there is no such
      device, or the last name is one of those before it, there is none. */
  lemma WayAnswered(o: Objects, names: seq<string>, sids: seq<string>)
    requires o.Keyed() && Leads(o, names, sids)
    requires forall i :: 0 <= i < |sids| ==> o.devices[names[i]].kind.Alias?
    ensures var last := names[|sids|];
            && (last in o.devices && !o.devices[last].kind.Alias? ==> Answers(o, names[0], Some(last)))
            && (last !in o.devices ==> Answers(o, names[0], None))
            && (last in names[..|sids|] ==> Answers(o, names[0], None))
  {
    hide At;
    forall k: nat | k <= |sids|
      ensures At(o, names[0], k) == Lookup(o.devices, names[k])
    {
      WayFollowed(o, names, sids, k);
    }
    OneOutcome(o, names[0]);
    var n, last := |sids|, names[|sids|];
    assert AliasesUpTo(o, names[0], n);
    if last in names[..n] {
      var i :| 0 <= i < n && names[i] == last;
      assert At(o, names[0], i) == At(o, names[0], n);
      assert Cycles(o, names[0]);
    } else if last !in o.devices {
      assert Dangles(o, names[0]);
    } else if !o.devices[last].kind.Alias? {
      assert Resolves(o, names[0], n);
    }
  }

  /** An alias whose interface is not known, or runs on no device, leads nowhere. */
  lemma WayEnds(o: Objects, name: string, sid: string)
    requires name in o.devices && o.devices[name].kind.Alias? && o.devices[name].sid == Some(sid)
    requires sid !in o.interfaces || (o.interfaces[sid].l3dev == None && "undefined" !in o.devices)
    ensures Dangles(o, name) && Answers(o, name, None)
  {
    OneOutcome(o, name);
    assert At(o, name, 1) == Link(o, o.devices[name]) == None;
    assert AliasesUpTo(o, name, 1);
    assert At(o, name, 0) == Some(o.devices[name]);
    hide At;
    assert Dangles(o, name);
  }
}
