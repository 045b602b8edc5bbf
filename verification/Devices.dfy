/**
 PCM devices shared by every session, and the groups some of them belong to
 (service/src/device.c).  A device object is addressed by its position in the device list.
 Every hardware call may fail; the caller of the model chooses the outcome.
 */
module Devices {
  import opened Common

  datatype DevState = DevClosed | DevOpened | DevPrepared | DevStarted | DevStopped

  /** States that do not sort below DEV_PREPARED. */
  predicate PreparedOrLater(s: DevState) {
    s.DevPrepared? || s.DevStarted? || s.DevStopped?
  }

  /** What enumeration fixes for good: the parent of a virtual child, the group, the bus. */
  datatype Link = Link(parent: Option<nat>, group: Option<nat>, slimbus: bool)

  /** Reference counts and state, plus the history of successful hardware opens and of hardware closes. */
  datatype Device = Device(open: nat, prepare: nat, start: nat, state: DevState, hwOpens: nat, hwCloses: nat)

  datatype Group = Group(open: int, prepare: int, start: int)

  datatype Totals = Totals(open: nat, start: nat)

  const IDLE_DEVICE := Device(0, 0, 0, DevClosed, 0, 0)
  const IDLE_GROUP := Group(0, 0, 0)

  predicate ValidLinks(links: seq<Link>, groups: nat) {
    forall d | 0 <= d < |links| ::
      && (links[d].parent.Some? ==> links[d].parent.value < |links|)
      && (links[d].group.Some? ==> links[d].group.value < groups)
  }

  /** A virtual child acts on its parent's PCM. */
  function PcmOf(links: seq<Link>, d: nat): nat
    requires d < |links|
  {
    if links[d].parent.Some? then links[d].parent.value else d
  }

  // ---------------------------------------------------------------- invariants

  /** Lifecycle of one PCM device. */
  predicate InStep(x: Device) {
    && (x.open == 0 <==> x.state.DevClosed?)
    && (x.prepare > 0 <==> PreparedOrLater(x.state))
    && (x.start > 0 <==> x.state.DevStarted?)
    && x.hwOpens == x.hwCloses + (if x.open > 0 then 1 else 0)
  }

  /** Sums of the open and start counts of a group's members. */
  function Members(links: seq<Link>, devs: seq<Device>, g: nat): Totals
    requires |devs| <= |links|
  {
    if devs == [] then Totals(0, 0)
    else
      var n := |devs| - 1;
      var rest := Members(links, devs[..n], g);
      if links[n].group == Some(g) then Totals(rest.open + devs[n].open, rest.start + devs[n].start) else rest
  }

  ghost predicate TableInv(links: seq<Link>, devs: seq<Device>, groups: seq<Group>)
    requires |devs| == |links|
  {
    && (forall d | 0 <= d < |devs| :: InStep(devs[d]))
    && (forall g | 0 <= g < |groups| ::
          && groups[g].open == Members(links, devs, g).open
          && groups[g].start >= Members(links, devs, g).start)
  }

  lemma {:induction false} MembersUpdate(links: seq<Link>, devs: seq<Device>, p: nat, x: Device, g: nat)
    requires |devs| <= |links| && p < |devs|
    ensures var before := Members(links, devs, g); var after := Members(links, devs[p := x], g);
            if links[p].group == Some(g)
            then after.open == before.open - devs[p].open + x.open && after.start == before.start - devs[p].start + x.start
            else after == before
  {
    var n := |devs| - 1;
    if p == n {
      assert devs[p := x][..n] == devs[..n];
    } else {
      assert devs[p := x][..n] == devs[..n][p := x];
      MembersUpdate(links, devs[..n], p, x, g);
    }
  }

  lemma {:induction false} MembersIdle(links: seq<Link>, devs: seq<Device>, g: nat)
    requires |devs| <= |links|
    requires forall d | 0 <= d < |devs| :: InStep(devs[d])
    requires Members(links, devs, g).open == 0
    ensures Members(links, devs, g).start == 0
  {
    if devs != [] {
      MembersIdle(links, devs[..|devs| - 1], g);
    }
  }

  /** A group counts at least what any one member counts. */
  lemma {:induction false} MembersCover(links: seq<Link>, devs: seq<Device>, p: nat, g: nat)
    requires |devs| <= |links| && p < |devs| && links[p].group == Some(g)
    ensures Members(links, devs, g).open >= devs[p].open
    ensures Members(links, devs, g).start >= devs[p].start
  {
    if p < |devs| - 1 {
      MembersCover(links, devs[..|devs| - 1], p, g);
    }
  }

  /** Replacing device `p` and moving its group by the same amounts keeps the table invariant. */
  lemma Replaced(links: seq<Link>, devs: seq<Device>, groups: seq<Group>, p: nat, x: Device, groups': seq<Group>)
    requires |devs| == |links| && p < |devs| && |groups'| == |groups| && ValidLinks(links, |groups|)
    requires TableInv(links, devs, groups) && InStep(x)
    requires forall g | 0 <= g < |groups| && links[p].group != Some(g) :: groups'[g] == groups[g]
    requires links[p].group.Some? ==>
               var g := links[p].group.value;
               && groups'[g].open == groups[g].open - devs[p].open + x.open
               && (groups'[g].start >= groups[g].start - devs[p].start + x.start
                   || (groups'[g].open == 0 && groups'[g].start == 0))
    ensures TableInv(links, devs[p := x], groups')
  {
    var devs' := devs[p := x];
    forall g | 0 <= g < |groups'|
      ensures groups'[g].open == Members(links, devs', g).open
      ensures groups'[g].start >= Members(links, devs', g).start
    {
      MembersUpdate(links, devs, p, x, g);
      if links[p].group == Some(g) && groups'[g].open == 0 {
        MembersIdle(links, devs', g);
      }
    }
  }

  // ---------------------------------------------------------------- operations

  /** The groups after the counts of device `p`'s group, if it has one, moved by the given amounts. */
  function Shifted(links: seq<Link>, groups: seq<Group>, p: nat, open: int, prepare: int, start: int): seq<Group>
    requires p < |links| && ValidLinks(links, |groups|)
  {
    if links[p].group.None? then groups
    else
      var g := links[p].group.value; var x := groups[g];
      groups[g := Group(x.open + open, x.prepare + prepare, x.start + start)]
  }

  /** A device after one open, one stop or one close that took effect. */
  function AfterOpen(x: Device): Device {
    if x.open > 0 then x.(open := x.open + 1) else x.(open := 1, state := DevOpened, hwOpens := x.hwOpens + 1)
  }

  function AfterStop(x: Device): Device {
    if x.start == 0 then x else x.(start := x.start - 1, state := if x.start == 1 then DevStopped else x.state)
  }

  function AfterClose(x: Device): Device {
    if x.open == 0 then x
    else if x.open > 1 then x.(open := x.open - 1)
    else Device(0, 0, 0, DevClosed, x.hwOpens, x.hwCloses + 1)
  }

  /** One step against the table, with the outcome of the hardware call it may make. */
  datatype DevOp =
    | OpOpen(dev: nat, hwFails: bool)
    | OpPrepare(dev: nat, hwFails: bool)
    | OpStart(dev: nat)
    | OpStop(dev: nat, hwFails: bool)
    | OpClose(dev: nat, hwFails: bool)

  datatype Table = Table(devs: seq<Device>, groups: seq<Group>)

  predicate ValidTable(links: seq<Link>, t: Table) {
    |t.devs| == |links| && ValidLinks(links, |t.groups|)
  }

  /** The groups once device `p` is closed once: a group without open members forgets its prepares and starts. */
  function GroupsReleased(links: seq<Link>, groups: seq<Group>, p: nat): seq<Group>
    requires p < |links| && ValidLinks(links, |groups|)
  {
    var down := Shifted(links, groups, p, -1, 0, 0);
    if links[p].group.Some? && down[links[p].group.value].open == 0 then down[links[p].group.value := IDLE_GROUP] else down
  }

  /** The table after one operation; one on a device that is not there, or a prepare of a closed device, is not made. */
  function AfterOp(links: seq<Link>, t: Table, op: DevOp): (r: Table)
    requires ValidTable(links, t)
    ensures ValidTable(links, r) && |r.groups| == |t.groups|
  {
    if op.dev >= |links| then t
    else
      var p := PcmOf(links, op.dev); var x := t.devs[p];
      match op
      case OpOpen(_, fails) =>
        if x.open == 0 && fails then t
        else Table(t.devs[p := AfterOpen(x)], Shifted(links, t.groups, p, 1, 0, 0))
      case OpPrepare(_, fails) =>
        if x.open == 0 || (x.prepare == 0 && fails) then t
        else Table(t.devs[p := x.(prepare := x.prepare + 1, state := if x.prepare > 0 then x.state else DevPrepared)],
                   Shifted(links, t.groups, p, 0, if x.prepare > 0 then 1 else 0, 0))
      case OpStart(_) =>
        if !PreparedOrLater(x.state) then t
        else Table(t.devs[p := x.(start := x.start + 1, state := if x.start > 0 then x.state else DevStarted)],
                   Shifted(links, t.groups, p, 0, 0, 1))
      case OpStop(_, _) =>
        if x.start == 0 then t else Table(t.devs[p := AfterStop(x)], Shifted(links, t.groups, p, 0, 0, -1))
      case OpClose(_, _) =>
        if x.open == 0 then t else Table(t.devs[p := AfterClose(x)], GroupsReleased(links, t.groups, p))
  }

  function AfterOps(links: seq<Link>, t: Table, ops: seq<DevOp>): (r: Table)
    requires ValidTable(links, t)
    ensures ValidTable(links, r) && |r.groups| == |t.groups|
  {
    if ops == [] then t else AfterOp(links, AfterOps(links, t, ops[..|ops| - 1]), ops[|ops| - 1])
  }

  class DeviceTable {
    const links: seq<Link>
    var devs: seq<Device>
    var groups: seq<Group>
    /** How often a close met a device whose open count was already zero. */
    ghost var strayCloses: nat

    ghost predicate Valid()
      reads this
    {
      |devs| == |links| && ValidLinks(links, |groups|)
    }

    ghost predicate Inv()
      reads this
      requires Valid()
    {
      TableInv(links, devs, groups)
    }

    constructor (links: seq<Link>, groupCount: nat)
      requires ValidLinks(links, groupCount)
      ensures Valid() && Inv() && this.links == links && |groups| == groupCount
      ensures strayCloses == 0 && forall d | 0 <= d < |devs| :: devs[d] == IDLE_DEVICE
    {
      this.links := links;
      devs := seq(|links|, i => IDLE_DEVICE);
      groups := seq(groupCount, i => IDLE_GROUP);
      strayCloses := 0;
      new;
      forall g | 0 <= g < groupCount ensures Members(links, devs, g) == Totals(0, 0) {
        AllIdle(links, devs, g);
      }
    }

    /** device_open: only the first open touches the hardware. */
    method Open(d: nat, hwFails: bool) returns (ret: Status)
      requires Valid() && d < |links|
      modifies this`devs, this`groups
      ensures Valid() && |groups| == old(|groups|)
      ensures ret == if old(devs[PcmOf(links, d)]).open == 0 && hwFails then Io else Ok
      ensures !ret.Ok? ==> devs == old(devs) && groups == old(groups)
      ensures var p := PcmOf(links, d); ret.Ok? ==> devs == old(devs)[p := AfterOpen(old(devs[p]))]
      ensures ret.Ok? ==> groups == Shifted(links, old(groups), PcmOf(links, d), 1, 0, 0)
      ensures old(Inv()) ==> Inv()
    {
      var p := PcmOf(links, d);
      var x := devs[p];
      if x.open == 0 && hwFails {
        return Io;
      }
      ret := Ok;
      if x.open > 0 {
        devs := devs[p := x.(open := x.open + 1)];
      } else {
        devs := devs[p := x.(open := 1, state := DevOpened, hwOpens := x.hwOpens + 1)];
      }
      if links[p].group.Some? {
        var g := links[p].group.value;
        groups := groups[g := groups[g].(open := groups[g].open + 1)];
      }
      if old(Inv()) {
        Replaced(links, old(devs), old(groups), p, devs[p], groups);
      }
    }

    /** device_prepare: the first prepare reaches the hardware and is not counted on the group. */
    method Prepare(d: nat, hwFails: bool) returns (ret: Status)
      requires Valid() && d < |links|
      modifies this`devs, this`groups
      ensures Valid() && |groups| == old(|groups|)
      ensures ret == if old(devs[PcmOf(links, d)]).prepare == 0 && hwFails then Foreign else Ok
      ensures !ret.Ok? ==> devs == old(devs) && groups == old(groups)
      ensures var p := PcmOf(links, d); var x := old(devs[p]);
              ret.Ok? ==> devs == old(devs)[p := x.(prepare := x.prepare + 1,
                                                    state := if x.prepare > 0 then x.state else DevPrepared)]
      ensures ret.Ok? ==>
                groups == Shifted(links, old(groups), PcmOf(links, d), 0,
                                  if old(devs[PcmOf(links, d)]).prepare > 0 then 1 else 0, 0)
      ensures old(Inv()) ==> (Inv() <==> !ret.Ok? || old(devs[PcmOf(links, d)]).open > 0)
    {
      var p := PcmOf(links, d);
      var x := devs[p];
      if x.prepare > 0 {
        devs := devs[p := x.(prepare := x.prepare + 1)];
        if links[p].group.Some? {
          var g := links[p].group.value;
          groups := groups[g := groups[g].(prepare := groups[g].prepare + 1)];
        }
      } else {
        if hwFails {
          return Foreign;
        }
        devs := devs[p := x.(prepare := x.prepare + 1, state := DevPrepared)];
      }
      ret := Ok;
      if old(Inv()) && x.open > 0 {
        Replaced(links, old(devs), old(groups), p, devs[p], groups);
      }
      assert old(Inv()) && x.open == 0 ==> !InStep(devs[p]);
    }

    /** device_start: refused unless the PCM was prepared. */
    method Start(d: nat) returns (ret: Status)
      requires Valid() && d < |links|
      modifies this`devs, this`groups
      ensures Valid() && |groups| == old(|groups|)
      ensures ret == if PreparedOrLater(old(devs[PcmOf(links, d)]).state) then Ok else NotPrepared
      ensures !ret.Ok? ==> devs == old(devs) && groups == old(groups)
      ensures var p := PcmOf(links, d); var x := old(devs[p]);
              ret.Ok? ==> devs == old(devs)[p := x.(start := x.start + 1,
                                                    state := if x.start > 0 then x.state else DevStarted)]
      ensures ret.Ok? ==> groups == Shifted(links, old(groups), PcmOf(links, d), 0, 0, 1)
      ensures old(Inv()) ==> Inv()
    {
      var p := PcmOf(links, d);
      var x := devs[p];
      if !PreparedOrLater(x.state) {
        return NotPrepared;
      }
      ret := Ok;
      if x.start > 0 {
        devs := devs[p := x.(start := x.start + 1)];
      } else {
        devs := devs[p := x.(start := x.start + 1, state := DevStarted)];
      }
      if links[p].group.Some? {
        var g := links[p].group.value;
        groups := groups[g := groups[g].(start := groups[g].start + 1)];
      }
      if old(Inv()) {
        Replaced(links, old(devs), old(groups), p, devs[p], groups);
      }
    }

    /** device_stop: a no-op on a device that is not started; the last stop leaves it STOPPED even if the hardware complains. */
    method Stop(d: nat, hwFails: bool) returns (ret: Status)
      requires Valid() && d < |links|
      modifies this`devs, this`groups
      ensures Valid() && |groups| == old(|groups|)
      ensures ret == if old(devs[PcmOf(links, d)]).start == 1 && hwFails then Foreign else Ok
      ensures var p := PcmOf(links, d); devs == old(devs)[p := AfterStop(old(devs[p]))]
      ensures groups == Shifted(links, old(groups), PcmOf(links, d), 0, 0,
                                if old(devs[PcmOf(links, d)]).start > 0 then -1 else 0)
      ensures old(Inv()) ==> Inv()
    {
      var p := PcmOf(links, d);
      var x := devs[p];
      ret := Ok;
      if x.start == 0 {
        return;
      }
      if links[p].group.Some? {
        var g := links[p].group.value;
        groups := groups[g := groups[g].(start := groups[g].start - 1)];
      }
      devs := devs[p := x.(start := x.start - 1)];
      if devs[p].start == 0 {
        if hwFails {
          ret := Foreign;
        }
        devs := devs[p := devs[p].(state := DevStopped)];
      }
      if old(Inv()) {
        Replaced(links, old(devs), old(groups), p, devs[p], groups);
      }
    }

    /** The group half of a close: the groups then are in step with device `p` closed once. */
    method ReleaseGroup(p: nat)
      requires Valid() && p < |links|
      modifies this`groups
      ensures old(Inv()) && devs[p].open > 0 ==> Valid() && TableInv(links, devs[p := AfterClose(devs[p])], groups)
      ensures |groups| == old(|groups|) && groups == GroupsReleased(links, old(groups), p)
    {
      if links[p].group.Some? {
        var g := links[p].group.value;
        groups := groups[g := groups[g].(open := groups[g].open - 1)];
        if groups[g].open == 0 {
          groups := groups[g := groups[g].(prepare := 0, start := 0)];
        }
      }
      if old(Inv()) && devs[p].open > 0 {
        Replaced(links, devs, old(groups), p, AfterClose(devs[p]), groups);
      }
    }

    /** device_close: the last close returns the device to CLOSED and drops whatever prepares and starts were left. */
    method Close(d: nat, hwFails: bool) returns (ret: Status)
      requires Valid() && d < |links|
      modifies this
      ensures Valid() && |groups| == old(|groups|)
      ensures ret == if old(devs[PcmOf(links, d)]).open == 1 && hwFails then Foreign else Ok
      ensures var p := PcmOf(links, d); devs == old(devs)[p := AfterClose(old(devs[p]))]
      ensures var p := PcmOf(links, d);
              groups == if old(devs[p]).open == 0 then old(groups) else GroupsReleased(links, old(groups), p)
      ensures strayCloses == old(strayCloses) + (if old(devs[PcmOf(links, d)]).open == 0 then 1 else 0)
      ensures old(Inv()) ==> Inv()
    {
      var p := PcmOf(links, d);
      var x := devs[p];
      ret := Ok;
      if x.open == 0 {
        strayCloses := strayCloses + 1;
        return;
      }
      ReleaseGroup(p);
      devs := devs[p := x.(open := x.open - 1)];
      if devs[p].open == 0 {
        if hwFails {
          ret := Foreign;
        }
        devs := devs[p := Device(0, 0, 0, DevClosed, x.hwOpens, x.hwCloses + 1)];
      }
    }

    /** Any sequence of device operations that prepares only open devices keeps every device and group in step. */
    method Run(ops: seq<DevOp>)
      requires Valid() && Inv()
      modifies this
      ensures Valid() && Inv() && Table(devs, groups) == AfterOps(links, old(Table(devs, groups)), ops)
    {
      for i := 0 to |ops|
        invariant Valid() && Inv() && Table(devs, groups) == AfterOps(links, old(Table(devs, groups)), ops[..i])
      {
        assert ops[..i + 1][..i] == ops[..i];
        Do(ops[i]);
      }
      assert ops[..|ops|] == ops;
    }

    /** One operation of a run. */
    method Do(op: DevOp)
      requires Valid() && Inv()
      modifies this
      ensures Valid() && Inv() && Table(devs, groups) == AfterOp(links, old(Table(devs, groups)), op)
    {
      if op.dev < |links| {
        match op {
          case OpOpen(d, f) => var ret := Open(d, f);
          case OpPrepare(d, f) =>
            if devs[PcmOf(links, d)].open > 0 {
              var ret := Prepare(d, f);
            }
          case OpStart(d) => var ret := Start(d);
          case OpStop(d, f) => var ret := Stop(d, f);
          case OpClose(d, f) => var ret := Close(d, f);
        }
      }
    }

    /** device_get_start_refcnt: a grouped device answers with its group's count. */
    method StartRefCount(d: nat) returns (n: int)
      requires Valid() && d < |links|
      ensures n == if links[d].group.Some? then groups[links[d].group.value].start else devs[d].start
      ensures Inv() ==> n >= devs[d].start
    {
      if links[d].group.Some? {
        n := groups[links[d].group.value].start;
        if Inv() {
          MembersCover(links, devs, d, links[d].group.value);
        }
      } else {
        n := devs[d].start;
      }
    }
  }

  lemma {:induction false} AllIdle(links: seq<Link>, devs: seq<Device>, g: nat)
    requires |devs| <= |links| && forall d | 0 <= d < |devs| :: devs[d] == IDLE_DEVICE
    ensures Members(links, devs, g) == Totals(0, 0)
  {
    if devs != [] {
      AllIdle(links, devs[..|devs| - 1], g);
    }
  }

  /** A virtual child and its parent share one PCM: it is opened once for both and stays open until both are closed. */
  method ChildAndParent(t: DeviceTable, child: nat, parent: nat)
    requires t.Valid() && child < |t.links| && parent < |t.links| && child != parent
    requires t.links[child].parent == Some(parent) && t.links[parent].parent.None? && t.devs[parent] == IDLE_DEVICE
    modifies t
    ensures t.Valid() && t.devs == old(t.devs)[parent := Device(0, 0, 0, DevClosed, 1, 1)]
  {
    var ret := t.Open(child, false);
    ret := t.Open(parent, true);
    assert ret.Ok? && t.devs[parent].open == 2 && t.devs[parent].hwOpens == 1;
    ret := t.Close(child, true);
    assert ret.Ok? && t.devs[parent].state.DevOpened?;
    ret := t.Close(parent, false);
  }
}
