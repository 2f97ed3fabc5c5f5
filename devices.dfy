/** The device registry and the base behaviour every device shares: lookup
    by id, the id list, the health review, the discovery of a new device,
    the change/alert notifications and the `set name` command. */
module Devices {
  import opened Values
  import opened Snapshots
  import opened Bus
  import opened Command
  import opened Expansion
  import opened Text

  /** A device object. The identity fields and the children are fixed by
      the driver that makes the device; the rest is updated in place. */
  class Device {
    const deviceID: string
    const deviceUID: string
    const whatami: string
    /** What `children()` returns: empty for the base device. */
    const children: seq<Device>
    var name: Value
    var status: string
    var info: map<string, Value>
    var elide: seq<string>
    /** The time of the last `changed`; 0 while the device was never stamped. */
    var updated: int
    /** The serialised snapshot (without its stamp) last seen by `changed`. */
    var prev: Option<Body>

    /** A device as a driver makes it on top of the base constructor. */
    constructor (deviceID: string, deviceUID: string, whatami: string, name: Value, children: seq<Device>)
      ensures this.deviceID == deviceID && this.deviceUID == deviceUID
      ensures this.whatami == whatami && this.name == name && this.children == children
      ensures status == "unknown" && info == map[] && elide == []
      ensures updated == 0 && prev == None
    {
      this.deviceID := deviceID;
      this.deviceUID := deviceUID;
      this.whatami := whatami;
      this.children := children;
      this.name := name;
      status := "unknown";
      info := map[];
      elide := [];
      updated := 0;
      prev := None;
    }

    /** `proplist()`. */
    function Proplist(): Snapshot
      reads this
    {
      SnapshotOf(whatami, deviceID, name, status, info, elide, updated)
    }

    /** What the template expander reads of this device. */
    function View(): Entity
      reads this
    {
      Entity(name, status, info)
    }

    /** `changed(now)`: stamp the device, raise the process-wide mark, and
        publish the snapshot when it differs from the last one seen. */
    method Changed(now: int, reg: Registry, bus: Broker)
      modifies this`updated, this`prev, reg`lastupdated, bus`log
      ensures updated == now
      ensures reg.lastupdated == HighWater(old(reg.lastupdated), now)
      ensures prev == Dedup(old(prev), Proplist(), bus.Has(Egress)).prev
      ensures bus.log == old(bus.log) + Dedup(old(prev), Proplist(), bus.Has(Egress)).published
    {
      updated := now;
      if reg.lastupdated < now {
        reg.lastupdated := now;
      }
      var snap := Proplist();
      if prev == Some(Serialised(snap.body)) {
        return;
      }
      prev := Some(Serialised(snap.body));
      if bus.Has(Egress) {
        bus.Publish(Publication(Egress, Updates(snap)));
        if status == "reset" || status == "error" {
          bus.Publish(Publication(Actors, Attention));
        }
      }
    }

    /** `alert(message)`: publish an alert carrying the current snapshot,
        if anybody listens on the telemetry topic. */
    method Alert(message: string, now: int, bus: Broker)
      modifies bus`log
      ensures bus.log == old(bus.log) +
                if bus.Has(Egress) then [Publication(Egress, AlertOf(Proplist(), message, now))] else []
    {
      if bus.Has(Egress) {
        var snap := Proplist();
        bus.Publish(Publication(Egress, AlertOf(snap, message, now)));
      }
    }

    /** `setName(deviceName)`: refuse a falsy name; otherwise answer true at
        once, and when the store has `written` the name, take it and call
        `changed`. */
    method SetName(deviceName: Value, written: bool, now: int, reg: Registry, bus: Broker) returns (ok: bool)
      modifies this`name, this`updated, this`prev, reg`lastupdated, bus`log
      ensures ok == Truthy(deviceName)
      ensures !(ok && written) ==>
                name == old(name) && updated == old(updated) && prev == old(prev) &&
                reg.lastupdated == old(reg.lastupdated) && bus.log == old(bus.log)
      ensures ok && written ==>
                name == deviceName && updated == now &&
                reg.lastupdated == HighWater(old(reg.lastupdated), now) &&
                prev == Some(Serialised(Proplist().body)) &&
                bus.log == old(bus.log) + Dedup(old(prev), Proplist(), bus.Has(Egress)).published
    {
      if !Truthy(deviceName) {
        return false;
      }
      if written {
        name := deviceName;
        Changed(now, reg, bus);
      }
      return true;
    }
  }

  /** `exports.perform(self, taskID, perform, parameter)`: only `set` with a
      truthy `name` reaches `setName`, whose answer is returned. */
  method Perform(self: Device, perform: string, parameter: string, parse: string -> Parsed,
                 written: bool, now: int, reg: Registry, bus: Broker) returns (ok: bool)
    modifies self`name, self`updated, self`prev, reg`lastupdated, bus`log
    ensures ok == PerformName(perform, parameter, parse).Some?
    ensures !(ok && written) ==>
              self.name == old(self.name) && self.updated == old(self.updated) &&
              self.prev == old(self.prev) && reg.lastupdated == old(reg.lastupdated) &&
              bus.log == old(bus.log)
    ensures ok && written ==>
              self.name == PerformName(perform, parameter, parse).value && self.updated == now &&
              reg.lastupdated == HighWater(old(reg.lastupdated), now) &&
              self.prev == Some(Serialised(self.Proplist().body)) &&
              bus.log == old(bus.log) + Dedup(old(self.prev), self.Proplist(), bus.Has(Egress)).published
  {
    var name := PerformName(perform, parameter, parse);
    if name.None? {
      return false;
    }
    ok := self.SetName(name.value, written, now, reg, bus);
  }

  /** What a discoverer reports: the unique id, the type and its fallback
      (`""` when absent), and the device's name. */
  datatype Discovery = Discovery(id: string, deviceType: string, deviceType2: string, name: Value)

  /** A slot of the registry: a placeholder until a device is made. */
  datatype Entry = Entry(discovery: Discovery, device: Option<Device>)

  datatype DiscoverError = NoMaker(message: string) | StoreFailed(diagnostic: string)

  /** The arguments `discover` calls back with. */
  datatype Reply = Reply(err: Option<DiscoverError>, deviceID: Option<string>)

  /** The state `discover` hands over to the store lookup. */
  datatype Lookup = Lookup(uid: string, deviceType: string, discovery: Discovery)

  /** The synchronous part of `discover`: finished, or waiting for the store. */
  datatype Started = Done(reply: Reply) | Pending(lookup: Lookup)

  /** The outcome of looking the unique id up in the store. */
  datatype SelectOutcome = Found(rowID: nat) | NotFound | SelectFailed(selectDiagnostic: string)

  /** The outcome of adding a new row to the store. */
  datatype InsertOutcome = Inserted(lastID: nat) | InsertFailed(insertDiagnostic: string)

  /** The type `discover` builds the device with: the announced type when a
      maker has it or there is no fallback, else the fallback. */
  function ResolveType(makers: set<string>, d: Discovery): (t: string)
    ensures t == d.deviceType || t == d.deviceType2
    ensures t != d.deviceType ==> d.deviceType !in makers && d.deviceType2 != ""
    ensures d.deviceType !in makers && d.deviceType2 != "" ==> t == d.deviceType2
  {
    if d.deviceType in makers || d.deviceType2 == "" then d.deviceType else d.deviceType2
  }

  /** The devices one slot contributes: the device and its children. */
  function Group(e: Entry): seq<Device> {
    match e.device
    case None => []
    case Some(d) => [d] + d.children
  }

  /** The devices of the slots `uids`, in that order. */
  function FlatOf(devices: map<string, Entry>, uids: seq<string>): seq<Device>
    decreases |uids|
  {
    if uids == [] then []
    else
      var u := uids[|uids| - 1];
      FlatOf(devices, uids[..|uids| - 1]) + if u in devices then Group(devices[u]) else []
  }

  function IdsOf(ds: seq<Device>): (ids: seq<string>)
    ensures |ids| == |ds|
    ensures forall i :: 0 <= i < |ds| ==> ids[i] == ds[i].deviceID
  {
    seq(|ds|, i requires 0 <= i < |ds| => ds[i].deviceID)
  }

  /** The index of the first device with this id, or -1. */
  function First(ds: seq<Device>, id: string): (k: int)
    ensures -1 <= k < |ds|
    ensures k >= 0 ==> ds[k].deviceID == id
    ensures forall j :: 0 <= j < k ==> ds[j].deviceID != id
    ensures k < 0 ==> forall j :: 0 <= j < |ds| ==> ds[j].deviceID != id
    decreases |ds|
  {
    if ds == [] then -1
    else if ds[0].deviceID == id then 0
    else
      var k := First(ds[1..], id);
      if k < 0 then -1 else k + 1
  }

  /** The lookup of `id2device` over the devices in registry order:
      nothing for the empty id, otherwise the first device with that id. */
  function FindIn(flat: seq<Device>, id: string): (r: Option<Device>)
    ensures r.Some? <==> id != "" && id in IdsOf(flat)
    ensures r.Some? ==> r.value in flat && r.value.deviceID == id
    ensures r.Some? ==> r.value == flat[First(flat, id)]
  {
    var k := First(flat, id);
    if id == "" || k < 0 then None
    else
      assert id in IdsOf(flat) <==> exists j :: 0 <= j < |flat| && flat[j].deviceID == id by {
        assert forall j :: 0 <= j < |flat| ==> IdsOf(flat)[j] == flat[j].deviceID;
      }
      Some(flat[k])
  }

  lemma FindInAt(flat: seq<Device>, id: string, k: nat)
    requires id != "" && k < |flat| && First(flat, id) == k
    ensures FindIn(flat, id) == Some(flat[k])
  {
  }

  /** The loops of `id2device` over the slots `order` of `devices`: each
      slot's device, then its children. */
  method Search(devices: map<string, Entry>, order: seq<string>, id: string) returns (r: Option<Device>)
    requires forall u :: u in order ==> u in devices
    ensures r == FindIn(FlatOf(devices, order), id)
  {
    ghost var flat := FlatOf(devices, order);
    if id == "" {
      r := None;
      assert r == FindIn(flat, id);
      return;
    }
    // `n` counts the devices and children of the slots already searched
    ghost var n := 0;
    var i := 0;
    while i < |order|
      invariant 0 <= i <= |order|
      invariant n == |FlatOf(devices, order[..i])| <= |flat|
      invariant forall k :: 0 <= k < n ==> flat[k].deviceID != id
    {
      var uid := order[i];
      var g := Group(devices[uid]);
      var k := SearchSlot(devices[uid], id);
      if k >= 0 {
        SlotFound(devices, order, i, id, flat);
        r := Some(g[k]);
        return;
      }
      SlotStep(devices, order, i, id, flat);
      n := n + |Group(devices[uid])|;
      i := i + 1;
    }
    assert order[..i] == order;
    assert First(flat, id) < 0;
    r := None;
    assert r == FindIn(flat, id);
  }

  /** What searching slot `i` adds to the search of the slots before it:
      its first match is the first match overall, or no device up to the
      end of the slot has the id. */
  lemma SlotStep(devices: map<string, Entry>, order: seq<string>, i: nat, id: string, flat: seq<Device>)
    requires i < |order| && order[i] in devices && flat == FlatOf(devices, order)
    requires forall k :: 0 <= k < |FlatOf(devices, order[..i])| && k < |flat| ==> flat[k].deviceID != id
    ensures |FlatOf(devices, order[..i + 1])| == |FlatOf(devices, order[..i])| + |Group(devices[order[i]])| <= |flat|
    ensures First(Group(devices[order[i]]), id) >= 0 ==>
              First(flat, id) == |FlatOf(devices, order[..i])| + First(Group(devices[order[i]]), id)
    ensures First(Group(devices[order[i]]), id) < 0 ==>
              forall k :: 0 <= k < |FlatOf(devices, order[..i + 1])| ==> flat[k].deviceID != id
  {
    GroupAt(devices, order, i);
    FirstInGroup(flat, |FlatOf(devices, order[..i])|, Group(devices[order[i]]), id);
  }

  /** The first match in slot `i`, no earlier slot having one, is what
      `id2device` returns. */
  lemma SlotFound(devices: map<string, Entry>, order: seq<string>, i: nat, id: string, flat: seq<Device>)
    requires i < |order| && order[i] in devices && flat == FlatOf(devices, order)
    requires forall k :: 0 <= k < |FlatOf(devices, order[..i])| && k < |flat| ==> flat[k].deviceID != id
    requires id != "" && First(Group(devices[order[i]]), id) >= 0
    ensures FindIn(flat, id) == Some(Group(devices[order[i]])[First(Group(devices[order[i]]), id)])
  {
    var f := First(Group(devices[order[i]]), id);
    SlotStep(devices, order, i, id, flat);
    SlotElement(devices, order, i, f, flat);
    FindInAt(flat, id, |FlatOf(devices, order[..i])| + f);
  }

  /** Slot `i`'s `f`-th device sits at its place in the whole list. */
  lemma SlotElement(devices: map<string, Entry>, order: seq<string>, i: nat, f: nat, flat: seq<Device>)
    requires i < |order| && order[i] in devices && flat == FlatOf(devices, order)
    requires f < |Group(devices[order[i]])|
    ensures |FlatOf(devices, order[..i])| + f < |flat|
    ensures flat[|FlatOf(devices, order[..i])| + f] == Group(devices[order[i]])[f]
  {
    GroupAt(devices, order, i);
  }

  /** One slot of `id2device`'s outer loop: the index of the first device
      with the id among the slot's device and its children, or -1. */
  method SearchSlot(e: Entry, id: string) returns (k: int)
    ensures k == First(Group(e), id)
  {
    if e.device.None? {
      return -1;
    }
    var d := e.device.value;
    ghost var g := Group(e);
    assert g == [d] + d.children && g[1..] == d.children;
    if d.deviceID == id {
      return 0;
    }
    k := SearchChildren(d.children, id);
    if k >= 0 {
      k := k + 1;
    }
  }

  /** The inner loop of `id2device`: the index of the first child with
      the id, or -1. */
  method SearchChildren(children: seq<Device>, id: string) returns (k: int)
    ensures k == First(children, id)
  {
    var i := 0;
    while i < |children|
      invariant 0 <= i <= |children|
      invariant forall j :: 0 <= j < i ==> children[j].deviceID != id
    {
      if children[i].deviceID == id {
        FirstAt(children, id, i);
        return i;
      }
      i := i + 1;
    }
    return -1;
  }

  /** A group of devices laid out in `flat` from index `n` on, after `n`
      devices none of which has the id: the first match in `flat` is the
      first match in the group, if there is one. */
  lemma FirstInGroup(flat: seq<Device>, n: nat, g: seq<Device>, id: string)
    requires n + |g| <= |flat|
    requires forall k :: 0 <= k < |g| ==> flat[n + k] == g[k]
    requires forall k :: 0 <= k < n ==> flat[k].deviceID != id
    ensures First(g, id) >= 0 ==> First(flat, id) == n + First(g, id) && flat[n + First(g, id)] == g[First(g, id)]
    ensures First(g, id) < 0 ==> forall k :: 0 <= k < n + |g| ==> flat[k].deviceID != id
  {
    var f := First(g, id);
    if f >= 0 {
      assert flat[n + f] == g[f];
      forall k | 0 <= k < n + f
        ensures flat[k].deviceID != id
      {
        if n <= k {
          assert flat[k] == g[k - n];
        }
      }
      FirstAt(flat, id, n + f);
    } else {
      forall k | n <= k < n + |g|
        ensures flat[k].deviceID != id
      {
        assert flat[k] == g[k - n];
      }
    }
  }

  datatype Bucket = InWarning | InAttention | InError

  /** The bucket `review` puts a status in. */
  function Severity(status: string): Option<Bucket> {
    if status == "waiting" || status == "busy" then Some(InWarning)
    else if status == "reset" then Some(InAttention)
    else if status == "error" then Some(InError)
    else None
  }

  datatype Counts = Counts(warning: nat, attention: nat, error: nat)

  function Bump(c: Counts, l: Bucket): Counts {
    match l
    case InWarning => c.(warning := c.warning + 1)
    case InAttention => c.(attention := c.attention + 1)
    case InError => c.(error := c.error + 1)
  }

  function Total(c: Counts): nat {
    c.warning + c.attention + c.error
  }

  /** The counts after `review` has looked at one more id: that id's
      device, as `id2device` finds it among `flat`, counted in its status's
      bucket. */
  function Count(flat: seq<Device>, c: Counts, id: string): (r: Counts)
    reads flat
    ensures Total(r) <= Total(c) + 1
  {
    match FindIn(flat, id)
    case None => c
    case Some(d) =>
      match Severity(d.status)
      case None => c
      case Some(l) => Bump(c, l)
  }

  /** What `review()` returns for the ids `ids`. */
  function Tally(flat: seq<Device>, ids: seq<string>): Counts
    reads flat
    decreases |ids|
  {
    if ids == [] then Counts(0, 0, 0)
    else Count(flat, Tally(flat, ids[..|ids| - 1]), ids[|ids| - 1])
  }

  /** Each id lands in at most one bucket. */
  lemma {:induction false} TallyBound(flat: seq<Device>, ids: seq<string>)
    ensures Total(Tally(flat, ids)) <= |ids|
    decreases |ids|
  {
    if ids != [] {
      TallyBound(flat, ids[..|ids| - 1]);
    }
  }

  /** How many of the ids `id2device` resolves, among `flat`, to a device
      whose status is one of `statuses`. */
  function Matching(flat: seq<Device>, ids: seq<string>, statuses: set<string>): nat
    reads flat
    decreases |ids|
  {
    if ids == [] then 0
    else
      var d := FindIn(flat, ids[|ids| - 1]);
      Matching(flat, ids[..|ids| - 1], statuses) + if d.Some? && d.value.status in statuses then 1 else 0
  }

  /** The buckets of `review`, counted one status class at a time: waiting
      and busy devices are warnings, reset ones need attention, and those in
      error are errors. */
  lemma {:induction false} TallyByStatus(flat: seq<Device>, ids: seq<string>)
    ensures Tally(flat, ids) ==
              Counts(Matching(flat, ids, {"waiting", "busy"}), Matching(flat, ids, {"reset"}),
                     Matching(flat, ids, {"error"}))
    decreases |ids|
  {
    if ids != [] {
      TallyByStatus(flat, ids[..|ids| - 1]);
      var d := FindIn(flat, ids[|ids| - 1]);
      if d.Some? {
        SeverityClasses(d.value.status);
      }
    }
  }

  lemma SeverityClasses(st: string)
    ensures st in {"waiting", "busy"} <==> Severity(st) == Some(InWarning)
    ensures st in {"reset"} <==> Severity(st) == Some(InAttention)
    ensures st in {"error"} <==> Severity(st) == Some(InError)
  {
  }

  /** The registry: `devices` by unique id, in the order the slots were made. */
  class Registry {
    var devices: map<string, Entry>
    /** The unique ids in insertion order: the order `for … in` visits
        them when no unique id is an array index. */
    var order: seq<string>
    /** The device types a driver has registered a maker for. */
    var makers: set<string>
    /** `exports.lastupdated`: the latest time any device changed. */
    var lastupdated: int

    ghost predicate Valid()
      reads this
    {
      (forall u :: u in devices <==> u in order) &&
      (forall i, j :: 0 <= i < j < |order| ==> order[i] != order[j])
    }

    constructor (makers: set<string>, startTime: int)
      ensures Valid()
      ensures devices == map[] && order == [] && this.makers == makers && lastupdated == startTime
    {
      devices := map[];
      order := [];
      this.makers := makers;
      lastupdated := startTime;
    }

    /** Every device and child, slot by slot. */
    function Flat(): seq<Device>
      reads this
    {
      FlatOf(devices, order)
    }

    /** What `idlist()` returns. */
    function Ids(): seq<string>
      reads this
    {
      IdsOf(Flat())
    }

    /** What `id2device(id)` returns. */
    function Find(id: string): (r: Option<Device>)
      reads this
      ensures r.Some? <==> id != "" && id in Ids()
      ensures r.Some? ==> r.value in Flat() && r.value.deviceID == id
    {
      FindIn(Flat(), id)
    }

    /** `idlist()`. */
    method IdList() returns (ids: seq<string>)
      requires Valid()
      ensures ids == Ids()
    {
      ids := [];
      var i := 0;
      while i < |order|
        invariant 0 <= i <= |order|
        invariant ids == IdsOf(FlatOf(devices, order[..i]))
      {
        var uid := order[i];
        assert order[..i + 1][..i] == order[..i];
        ghost var pre := FlatOf(devices, order[..i]);
        var device := devices[uid].device;
        if device.Some? {
          var d := device.value;
          ids := ids + [d.deviceID];
          var j := 0;
          while j < |d.children|
            invariant 0 <= j <= |d.children|
            invariant ids == IdsOf(pre + ([d] + d.children[..j]))
          {
            assert d.children[..j + 1] == d.children[..j] + [d.children[j]];
            ids := ids + [d.children[j].deviceID];
            j := j + 1;
          }
          assert d.children[..j] == d.children;
        }
        i := i + 1;
      }
      assert order[..i] == order;
    }

    /** `id2device(id)`. */
    method Id2Device(id: string) returns (r: Option<Device>)
      requires Valid()
      ensures r == Find(id)
    {
      r := Search(devices, order, id);
    }

    /** `review()`. */
    method Review() returns (c: Counts)
      requires Valid()
      ensures c == Tally(Flat(), Ids())
      ensures Total(c) <= |Ids()|
    {
      var ids := IdList();
      ghost var flat := Flat();
      c := Counts(0, 0, 0);
      var i := 0;
      while i < |ids|
        invariant 0 <= i <= |ids|
        invariant c == Tally(flat, ids[..i])
      {
        assert ids[..i + 1][..i] == ids[..i];
        var d := Find(ids[i]);
        if d.Some? {
          var state := Severity(d.value.status);
          if state.Some? {
            c := Bump(c, state.value);
          }
        }
        i := i + 1;
      }
      assert ids[..i] == ids;
      TallyBound(flat, ids);
    }

    /** `discover(info, callback)` up to the store lookup: a known unique id
        is answered at once; otherwise a placeholder slot is reserved, and
        the lookup proceeds only when a maker exists for the resolved type. */
    method Discover(info: Discovery) returns (step: Started)
      requires Valid()
      modifies this`devices, this`order
      ensures Valid()
      ensures info.id in old(devices) ==>
                step == Done(Reply(None, None)) && devices == old(devices) && order == old(order)
      ensures info.id !in old(devices) ==>
                devices == old(devices)[info.id := Entry(info, None)] && order == old(order) + [info.id]
      ensures info.id !in old(devices) && ResolveType(makers, info) !in makers ==>
                step == Done(Reply(Some(NoMaker("no maker registered for " + info.deviceType)), None))
      ensures info.id !in old(devices) && ResolveType(makers, info) in makers ==>
                step == Pending(Lookup(info.id, ResolveType(makers, info), info))
      ensures Flat() == old(Flat())
    {
      var deviceUID := info.id;
      if deviceUID in devices {
        return Done(Reply(None, None));
      }
      FlatOfFresh(devices, order, deviceUID, Entry(info, None));
      devices := devices[deviceUID := Entry(info, None)];
      order := order + [deviceUID];
      assert order[..|order| - 1] == old(order);
      var deviceType := ResolveType(makers, info);
      if deviceType !in makers {
        return Done(Reply(Some(NoMaker("no maker registered for " + info.deviceType)), None));
      }
      return Pending(Lookup(deviceUID, deviceType, info));
    }

    /** The store continuation of `discover`: a row found makes the device
        under its stored id; no row, or a failed lookup, inserts a new row;
        a failed insert leaves the placeholder. The device is made as the
        base maker makes it, with the resolved type as `whatami`. */
    method Resume(p: Lookup, select: SelectOutcome, insert: InsertOutcome) returns (reply: Reply, made: Option<Device>)
      requires Valid() && p.uid in devices
      modifies this`devices
      ensures Valid()
      ensures select.Found? ==> reply == Reply(None, None)
      ensures !select.Found? && insert.InsertFailed? ==>
                reply == Reply(Some(StoreFailed(insert.insertDiagnostic)), None) && made == None
      ensures !select.Found? && insert.Inserted? ==> reply == Reply(None, Some(Digits(insert.lastID)))
      ensures made == None ==> devices == old(devices)
      ensures made.Some? ==>
                fresh(made.value) && made.value in Flat() &&
                made.value.deviceID == Digits(if select.Found? then select.rowID else insert.lastID) &&
                made.value.deviceUID == p.uid && made.value.whatami == p.deviceType &&
                made.value.name == p.discovery.name && made.value.children == [] &&
                devices == old(devices)[p.uid := Entry(old(devices)[p.uid].discovery, made)]
      ensures select.Found? || insert.Inserted? ==> made.Some?
    {
      var deviceID: nat;
      if select.Found? {
        reply := Reply(None, None);
        deviceID := select.rowID;
      } else if insert.InsertFailed? {
        return Reply(Some(StoreFailed(insert.insertDiagnostic)), None), None;
      } else {
        reply := Reply(None, Some(Digits(insert.lastID)));
        deviceID := insert.lastID;
      }
      var d := new Device(Digits(deviceID), p.uid, p.deviceType, p.discovery.name, []);
      var entry := Entry(devices[p.uid].discovery, Some(d));
      devices := devices[p.uid := entry];
      made := Some(d);
      FlatOfHas(devices, order, p.uid);
    }

    /** The device table the template expander resolves a bare id in. */
    function Table(): map<string, Entity>
      reads this, Flat()
    {
      map id | id in Ids() && id != "" :: Find(id).value.View()
    }

    /** The expander's table holds exactly the ids `id2device` resolves,
        each with that device's view. */
    lemma TableAgreesWithFind(id: string)
      ensures id in Table() <==> Find(id).Some?
      ensures id in Table() ==> Table()[id] == Find(id).value.View()
    {
    }
  }

  /** A bare device id in a template resolves to what `id2device` finds
      for it, seen as an entity, and to nothing when it finds nothing. */
  lemma ResolveBareId(reg: Registry, sc: Scope, head: string)
    requires sc.devices == reg.Table()
    requires head != "" && '/' !in head
    ensures Resolve(sc, head) == if reg.Find(head).Some? then Some(reg.Find(head).value.View()) else None
  {
    reg.TableAgreesWithFind(head);
  }

  /** A template reference `.[id…].` to an id that `id2device` does not
      find is replaced by just `.[`. */
  lemma TemplateUnknownDevice(reg: Registry, sc: Scope, pre: string, id: string, fields: string, after: string)
    requires sc.devices == reg.Table() && reg.Find(id).None?
    requires IndexOf2(pre, '.', '[') < 0
    requires id != "" && '/' !in id && '.' !in id
    requires IndexOf2(id + fields, ']', '.') < 0
    requires fields == [] || fields[0] == '.'
    ensures Expanded(pre + ".[" + id + fields + "]." + after, sc) == pre + ".[" + Expanded(after, sc)
  {
    ResolveBareId(reg, sc, id);
    ExpandedUnknownDevice(pre, id, fields, after, sc);
  }

  /** `.[id.status].` for an id that `id2device` finds is replaced by that
      device's status. */
  lemma TemplateDeviceStatus(reg: Registry, sc: Scope, pre: string, id: string, after: string)
    requires sc.devices == reg.Table() && reg.Find(id).Some?
    requires IndexOf2(pre, '.', '[') < 0
    requires '/' !in id && '.' !in id && ']' !in id
    ensures Expanded(pre + ".[" + id + ".status]." + after, sc) ==
              pre + reg.Find(id).value.status + Expanded(after, sc)
  {
    var e := FoundEntity(reg, sc, id);
    TemplateField(sc, pre, id, "status", ".status].", after);
    assert Read(e, "status") == Some(Str(e.status));
  }

  /** `.[id.name].` for an id that `id2device` finds is replaced by that
      device's name. */
  lemma TemplateDeviceName(reg: Registry, sc: Scope, pre: string, id: string, after: string)
    requires sc.devices == reg.Table() && reg.Find(id).Some?
    requires IndexOf2(pre, '.', '[') < 0
    requires '/' !in id && '.' !in id && ']' !in id
    ensures Expanded(pre + ".[" + id + ".name]." + after, sc) ==
              pre + ToText(reg.Find(id).value.name) + Expanded(after, sc)
  {
    var e := FoundEntity(reg, sc, id);
    TemplateField(sc, pre, id, "name", ".name].", after);
    assert Read(e, "name") == Some(e.name);
  }

  /** The table entry of an id that `id2device` finds. */
  lemma FoundEntity(reg: Registry, sc: Scope, id: string) returns (e: Entity)
    requires sc.devices == reg.Table() && reg.Find(id).Some?
    requires '/' !in id
    ensures id != "" && id in sc.devices && sc.devices[id] == e
    ensures e == reg.Find(id).value.View()
  {
    ResolveBareId(reg, sc, id);
    e := sc.devices[id];
  }

  /** One field segment after an id without `]`; `close` is the segment
      with its dot and the closing `].`. */
  lemma TemplateField(sc: Scope, pre: string, id: string, part: string, close: string, after: string)
    requires IndexOf2(pre, '.', '[') < 0
    requires id != "" && '/' !in id && '.' !in id && ']' !in id && id in sc.devices
    requires part == "status" || part == "name"
    requires close == "." + part + "]."
    ensures Expanded(pre + ".[" + id + close + after, sc) ==
              pre + ToText(Read(sc.devices[id], part).value) + Expanded(after, sc)
  {
    var body := id + "." + part;
    assert ']' !in body;
    NoFirstChar(body, ']', '.');
    ExpandedDeviceField(pre, id, part, after, sc);
    Rejoined(pre, id, part, close, after);
  }

  /** The line of `ExpandedDeviceField` is the line of `TemplateField`. */
  lemma Rejoined(pre: string, id: string, part: string, close: string, after: string)
    requires close == "." + part + "]."
    ensures pre + ".[" + id + "." + part + "]." + after == pre + ".[" + id + close + after
  {
    assert id + "." + part + "]." == id + close;
  }

  /** Adding a slot that is not yet listed changes no listed slot's devices. */
  lemma {:induction false} FlatOfFresh(devices: map<string, Entry>, uids: seq<string>, u: string, e: Entry)
    requires u !in uids
    ensures FlatOf(devices[u := e], uids) == FlatOf(devices, uids)
    decreases |uids|
  {
    if uids != [] {
      FlatOfFresh(devices, uids[..|uids| - 1], u, e);
    }
  }

  /** The devices of the first `i + 1` slots extend those of the first `i`
      by the devices of slot `i`, and all of them start the whole list. */
  lemma FlatOfStep(devices: map<string, Entry>, uids: seq<string>, i: nat)
    requires i < |uids| && uids[i] in devices
    ensures FlatOf(devices, uids[..i + 1]) == FlatOf(devices, uids[..i]) + Group(devices[uids[i]])
    ensures FlatOf(devices, uids[..i + 1]) <= FlatOf(devices, uids)
  {
    assert uids[..i + 1][..i] == uids[..i];
    FlatOfPrefix(devices, uids, i + 1);
  }

  /** Slot `i`'s devices sit in the whole list right after those of the
      slots before it. */
  lemma GroupAt(devices: map<string, Entry>, uids: seq<string>, i: nat)
    requires i < |uids| && uids[i] in devices
    ensures var pre := FlatOf(devices, uids[..i]);
            var g := Group(devices[uids[i]]);
            FlatOf(devices, uids[..i + 1]) == pre + g &&
            |pre| + |g| <= |FlatOf(devices, uids)| &&
            forall k :: 0 <= k < |g| ==> FlatOf(devices, uids)[|pre| + k] == g[k]
  {
    FlatOfStep(devices, uids, i);
    var pre := FlatOf(devices, uids[..i]);
    var g := Group(devices[uids[i]]);
    PrefixAt(pre, g, FlatOf(devices, uids));
  }

  /** A list that `pre + g` starts holds `g` right after `pre`. */
  lemma PrefixAt(pre: seq<Device>, g: seq<Device>, full: seq<Device>)
    requires pre + g <= full
    ensures forall k :: 0 <= k < |g| ==> full[|pre| + k] == g[k]
  {
    forall k | 0 <= k < |g|
      ensures full[|pre| + k] == g[k]
    {
      assert (pre + g)[|pre| + k] == g[k];
    }
  }

  lemma {:induction false} FlatOfPrefix(devices: map<string, Entry>, uids: seq<string>, n: nat)
    requires n <= |uids|
    ensures FlatOf(devices, uids[..n]) <= FlatOf(devices, uids)
    decreases |uids| - n
  {
    if n < |uids| {
      var init := uids[..|uids| - 1];
      assert uids[..n] == init[..n];
      FlatOfPrefix(devices, init, n);
    } else {
      assert uids[..n] == uids;
    }
  }

  /** A listed slot's device is among the devices. */
  lemma {:induction false} FlatOfHas(devices: map<string, Entry>, uids: seq<string>, u: string)
    requires u in uids && u in devices && devices[u].device.Some?
    ensures devices[u].device.value in FlatOf(devices, uids)
    decreases |uids|
  {
    if uids[|uids| - 1] != u {
      assert u in uids[..|uids| - 1];
      FlatOfHas(devices, uids[..|uids| - 1], u);
    }
  }

  /** The index of a device with the id, no earlier one having it, is the first. */
  lemma FirstAt(ds: seq<Device>, id: string, k: nat)
    requires k < |ds| && ds[k].deviceID == id
    requires forall j :: 0 <= j < k ==> ds[j].deviceID != id
    ensures First(ds, id) == k
  {
  }
}
