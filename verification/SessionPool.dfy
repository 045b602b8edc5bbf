/**
 All sessions over one device table, driven by arbitrary sequences of API calls
 (session_obj_* in service/src/session_obj.c, each one step under its session's lock).
 */
module SessionPools {
  import opened Common
  import opened Devices
  import opened Sessions
  import opened SessionCalls

  datatype Request = Request(session: nat, call: Call, faults: Faults)

  /** What became of a request: the session it went to, and its answer if it was served. */
  datatype Step = Step(session: nat, answer: Option<Status>)

  datatype Entry = Entry(id: nat, snap: Snap)

  /** The sessions with their ids, and the devices. */
  datatype World = World(entries: seq<Entry>, devs: seq<Device>)

  const FRESH := Snap(SessClosed, Rx, [], false, false, false)

  predicate Known(entries: seq<Entry>, id: nat) {
    exists i | 0 <= i < |entries| :: entries[i].id == id
  }

  /** The entries once the session `id` is looked up: a new session is added at the end. */
  function Looked(entries: seq<Entry>, id: nat): seq<Entry> {
    if Known(entries, id) then entries else entries + [Entry(id, FRESH)]
  }

  /** A run so far: the world it started from, then each request with what became of it and the world after it. */
  datatype History = Start(world: World) | Next(past: History, request: Request, step: Step, world: World)

  function First(h: History): World {
    match h
    case Start(w) => w
    case Next(past, _, _, _) => First(past)
  }

  function Requests(h: History): seq<Request> {
    match h
    case Start(_) => []
    case Next(past, r, _, _) => Requests(past) + [r]
  }

  /** Every request took effect where the one before left off. */
  ghost predicate Happened(links: seq<Link>, h: History) {
    match h
    case Start(_) => true
    case Next(past, r, step, w) => Happened(links, past) && Took(links, past.world, r, step, w)
  }

  /** The histories of runs of these requests from one world to the other. */
  ghost function Runs(links: seq<Link>, from: World, requests: seq<Request>, to: World): iset<History> {
    iset h: History | Happened(links, h) && First(h) == from && h.world == to && Requests(h) == requests
  }

  /**
   A request took effect: it went to the session with its id, was served as its call asks unless it would
   break conservation, and changed no other session.
   */
  ghost predicate Took(links: seq<Link>, w: World, r: Request, step: Step, w': World) {
    var mid := Looked(w.entries, r.session); var k := step.session;
    && k < |mid| && mid[k].id == r.session && |w'.entries| == |mid|
    && (step.answer.Some? <==> !Breaks(mid[k].snap, r.call, r.faults) && DisconnectsMerge(r.faults))
    && (forall j | 0 <= j < |mid| && j != k :: w'.entries[j] == mid[j]) && w'.entries[k].id == r.session
    && if step.answer.None? then w'.entries[k] == mid[k] && w'.devs == w.devs
       else Served(links, w.devs, mid[k].snap, r.call, r.faults, true, step.answer.value, w'.entries[k].snap, w'.devs)
  }

  /** Interfaces at AIF_OPENED or above, over every pool, that map to PCM device `p`. */
  function Holders(links: seq<Link>, pools: seq<seq<Aif>>, p: nat): nat
    requires forall i | 0 <= i < |pools| :: Mapped(links, pools[i])
  {
    if pools == [] then 0
    else Holders(links, pools[..|pools| - 1], p) + Count(links, pools[|pools| - 1], Live, p)
  }

  lemma {:induction false} HoldersUpdate(links: seq<Link>, pools: seq<seq<Aif>>, k: nat, aifs: seq<Aif>, p: nat)
    requires k < |pools| && Mapped(links, aifs) && forall i | 0 <= i < |pools| :: Mapped(links, pools[i])
    ensures Holders(links, pools, p) >= Count(links, pools[k], Live, p)
    ensures Holders(links, pools[k := aifs], p)
            == Holders(links, pools, p) - Count(links, pools[k], Live, p) + Count(links, aifs, Live, p)
  {
    var n := |pools| - 1;
    if k == n {
      assert pools[k := aifs][..n] == pools[..n];
    } else {
      assert pools[k := aifs][..n] == pools[..n][k := aifs];
      HoldersUpdate(links, pools[..n], k, aifs, p);
    }
  }

  lemma HoldersAdd(links: seq<Link>, pools: seq<seq<Aif>>, p: nat)
    requires forall i | 0 <= i < |pools| :: Mapped(links, pools[i])
    ensures Holders(links, pools + [[]], p) == Holders(links, pools, p)
  {
    assert (pools + [[]])[..|pools|] == pools;
  }

  lemma NextRequest(requests: seq<Request>, i: nat)
    requires i < |requests|
    ensures requests[..i] + [requests[i]] == requests[..i + 1]
  {
  }

  class SessionPool {
    const table: DeviceTable
    var ids: seq<nat>
    var sessions: seq<SessionObj>

    ghost predicate Valid()
      reads this, sessions, table
    {
      && |ids| == |sessions| && table.Valid()
      && (forall i | 0 <= i < |sessions| :: sessions[i].table == table && sessions[i].Valid())
      && (forall i, j | 0 <= i < j < |sessions| :: sessions[i] != sessions[j])
    }

    ghost function Pools(): (pools: seq<seq<Aif>>)
      reads this, sessions
      ensures |pools| == |sessions| && forall i | 0 <= i < |pools| :: pools[i] == sessions[i].aifs
    {
      seq(|sessions|, i requires 0 <= i < |sessions| reads this, sessions => sessions[i].aifs)
    }

    ghost function Now(): (w: World)
      reads this, sessions, table
      requires |ids| == |sessions|
      ensures w.devs == table.devs && |w.entries| == |sessions|
      ensures forall i | 0 <= i < |sessions| :: w.entries[i] == Entry(ids[i], sessions[i].Now())
    {
      World(seq(|sessions|, i requires 0 <= i < |sessions| && |ids| == |sessions| reads this, sessions =>
              Entry(ids[i], sessions[i].Now())),
            table.devs)
    }

    /**
     Every PCM device is open once per live interface that maps to it, the table is in step, and every
     interface that was prepared still has a prepared device.
     */
    ghost predicate Conserved()
      reads this, sessions, table
      requires Valid()
    {
      && table.Inv()
      && (forall p | 0 <= p < |table.links| :: table.devs[p].open == Holders(table.links, Pools(), p))
      && (forall i | 0 <= i < |sessions| :: sessions[i].Ready())
    }

    /** In a conserved pool a session's surplus is what the others hold. */
    lemma SessionIsSound(k: nat)
      requires Valid() && k < |sessions| && table.Inv()
      requires forall p | 0 <= p < |table.links| :: table.devs[p].open == Holders(table.links, Pools(), p)
      ensures sessions[k].Sound()
    {
      forall p | 0 <= p < |table.links| ensures sessions[k].Surplus(p) >= 0 {
        HoldersUpdate(table.links, Pools(), k, sessions[k].aifs, p);
      }
    }

    constructor (links: seq<Link>, groupCount: nat)
      requires ValidLinks(links, groupCount)
      ensures Valid() && Conserved() && fresh(table) && table.links == links && sessions == [] && table.strayCloses == 0
    {
      table := new DeviceTable(links, groupCount);
      ids, sessions := [], [];
    }

    /** session_obj_get: finds a session by id, or adds a closed one. */
    method GetSession(id: nat) returns (k: nat)
      requires Valid() && Conserved()
      modifies this
      ensures Valid() && Conserved() && k < |sessions| && ids[k] == id
      ensures Now() == World(Looked(old(Now()).entries, id), table.devs)
      ensures forall i | 0 <= i < |sessions| :: sessions[i] in old(sessions) || fresh(sessions[i])
    {
      k := 0;
      while k < |ids| && ids[k] != id
        invariant k <= |ids| && forall j | 0 <= j < k :: ids[j] != id
      {
        k := k + 1;
      }
      if k < |ids| {
        assert Now().entries[k].id == id;
      } else {
        AddSession(id);
      }
    }

    /** Adds a closed session, which holds nothing. */
    method AddSession(id: nat)
      requires Valid() && Conserved()
      modifies this
      ensures Valid() && Conserved() && |sessions| == |old(sessions)| + 1 && ids == old(ids) + [id]
      ensures Now() == World(old(Now()).entries + [Entry(id, FRESH)], table.devs)
      ensures forall i | 0 <= i < |sessions| :: sessions[i] in old(sessions) || fresh(sessions[i])
    {
      var s := new SessionObj(table, Rx);
      ghost var before := Pools();
      ids, sessions := ids + [id], sessions + [s];
      assert Pools() == before + [[]];
      forall p | 0 <= p < |table.links| ensures table.devs[p].open == Holders(table.links, Pools(), p) {
        HoldersAdd(table.links, before, p);
      }
      assert Now().entries == old(Now()).entries + [Entry(id, FRESH)];
    }

    /** Serves one request on session `k`. */
    method ServeAt(k: nat, call: Call, faults: Faults) returns (ret: Status)
      requires Valid() && Conserved() && k < |sessions|
      requires !Breaks(sessions[k].Now(), call, faults) && DisconnectsMerge(faults)
      modifies sessions, table
      ensures Valid() && Conserved() && |table.groups| == old(|table.groups|)
      ensures Served(table.links, old(table.devs), old(sessions[k].Now()), call, faults, true, ret, sessions[k].Now(), table.devs)
      ensures forall j | 0 <= j < |sessions| && j != k :: sessions[j].Now() == old(sessions[j].Now())
      ensures table.strayCloses == old(table.strayCloses)
    {
      var s := sessions[k];
      ghost var pools := Pools();
      ghost var links := table.links;
      SessionIsSound(k);
      ret := Serve(s, call, faults);
      assert Pools() == pools[k := s.aifs];
      StillConserved(k, pools, old(table.devs));
    }

    /** Conservation after session `k` kept every surplus: `pools` and `devs` are the pools and devices before. */
    lemma StillConserved(k: nat, pools: seq<seq<Aif>>, devs: seq<Device>)
      requires Valid() && table.Inv() && k < |sessions| == |pools| && Pools() == pools[k := sessions[k].aifs]
      requires |devs| == |table.links| && forall i | 0 <= i < |pools| :: Mapped(table.links, pools[i])
      requires forall p | 0 <= p < |devs| ::
                 && devs[p].open == Holders(table.links, pools, p)
                 && sessions[k].Surplus(p) == devs[p].open - Count(table.links, pools[k], Live, p)
      requires Keeps(devs, table.devs) && sessions[k].Ready()
      requires forall i | 0 <= i < |pools| && i != k :: Backed(table.links, devs, pools[i])
      ensures Conserved()
    {
      forall p | 0 <= p < |table.links| ensures table.devs[p].open == Holders(table.links, Pools(), p) {
        HoldersUpdate(table.links, pools, k, sessions[k].aifs, p);
        assert sessions[k].Surplus(p) == table.devs[p].open - Count(table.links, sessions[k].aifs, Live, p);
      }
      forall i | 0 <= i < |sessions| ensures sessions[i].Ready() {
        if i != k {
          assert pools[i] == Pools()[i] == sessions[i].aifs;
          SessionIsSound(i);
          sessions[i].StillReady(devs);
        }
      }
    }

    /**
     Every run: any requests in any order, with any failures outside the disconnect merges.  A request
     that would break conservation is one that a disciplined client does not issue.
     */
    method Run(requests: seq<Request>) returns (ghost h: History)
      requires Valid() && Conserved()
      modifies this, sessions, table
      ensures Valid() && Conserved()
      ensures table.strayCloses == old(table.strayCloses)
      ensures h in Runs(table.links, old(Now()), requests, Now())
    {
      h := Start(Now());
      assert requests[..|requests|] == requests;
      for i := 0 to |requests|
        invariant Valid() && Conserved()
        invariant forall j | 0 <= j < |sessions| :: sessions[j] in old(sessions) || fresh(sessions[j])
        invariant table.strayCloses == old(table.strayCloses)
        invariant h in Runs(table.links, old(Now()), requests[..i], Now())
      {
        h := Advance(requests[i], h, old(Now()), requests[..i]);
        NextRequest(requests, i);
      }
    }

    /** One request of a run, and its entry in the history. */
    method Advance(r: Request, ghost h: History, ghost from: World, ghost done: seq<Request>) returns (ghost h': History)
      requires Valid() && Conserved() && h in Runs(table.links, from, done, Now())
      modifies this, sessions, table
      ensures Valid() && Conserved()
      ensures forall j | 0 <= j < |sessions| :: sessions[j] in old(sessions) || fresh(sessions[j])
      ensures table.strayCloses == old(table.strayCloses)
      ensures h' in Runs(table.links, from, done + [r], Now())
    {
      var step := Handle(r);
      h' := Next(h, r, step, Now());
    }

    /** One request of a run. */
    method Handle(r: Request) returns (step: Step)
      requires Valid() && Conserved()
      modifies this, sessions, table
      ensures Valid() && Conserved()
      ensures forall j | 0 <= j < |sessions| :: sessions[j] in old(sessions) || fresh(sessions[j])
      ensures table.strayCloses == old(table.strayCloses)
      ensures Took(table.links, old(Now()), r, step, Now())
    {
      var k := GetSession(r.session);
      step := Step(k, None);
      if !Breaks(sessions[k].Now(), r.call, r.faults) && DisconnectsMerge(r.faults) {
        var ret := ServeAt(k, r.call, r.faults);
        step := Step(k, Some(ret));
      }
    }
  }

  // ---------------------------------------------------------------- what the discipline is for

  lemma CountOne(links: seq<Link>, a: Aif, p: nat)
    requires a.dev < |links|
    ensures Count(links, [a], Live, p) == if In(a.state, Live) && PcmOf(links, a.dev) == p then 1 else 0
  {
    assert [a][..0] == [];
  }

  /** A session that connected device 0 and was opened. */
  method OpenedSession(table: DeviceTable) returns (s: SessionObj)
    requires table.Valid() && table.Inv() && |table.links| > 0
    modifies table
    ensures fresh(s) && s.table == table && s.Valid() && s.Sound() && s.state == SessOpened && s.graph
    ensures s.aifs == [Aif(0, AifOpened)]
    ensures forall p | 0 <= p < |table.links| ::
              table.devs[p].open == old(table.devs[p].open) + (if p == PcmOf(table.links, 0) then 1 else 0)
  {
    s := new SessionObj(table, Rx);
    var ret, i := s.Connect(0, {});
    assert s.aifs == [Aif(0, AifOpen)] && FirstOpen(s.aifs, 0);
    assert forall p | 0 <= p < |table.links| :: s.Surplus(p) == table.devs[p].open;
    ret := s.Open({});
    assert s.aifs == [Aif(0, AifOpened)];
    forall p | 0 <= p < |table.links| ensures s.Held(p) == if p == PcmOf(table.links, 0) then 1 else 0 {
      CountOne(table.links, s.aifs[0], p);
    }
  }

  /** Connecting an opened interface again: one interface holds the device, its count is two. */
  method ConnectTwice() returns (open: nat, held: nat)
    ensures open == 2 && held == 1
  {
    var table := new DeviceTable([Link(None, None, false)], 0);
    var s := OpenedSession(table);
    CountOne(table.links, s.aifs[0], 0);
    var ret, i := s.Connect(0, {});
    CountOne(table.links, s.aifs[0], 0);
    assert s.aifs == [s.aifs[0]] && s.Surplus(0) == 1;
    open, held := table.devs[0].open, Count(table.links, s.aifs, Live, 0);
  }

  /** A closed session that connected devices 0 and 1. */
  method TwoWaiting(table: DeviceTable) returns (s: SessionObj)
    requires table.Valid() && table.Inv() && |table.links| == 2
    modifies table
    ensures fresh(s) && s.table == table && s.Valid() && s.state == SessClosed && !s.ecRef && !s.loopback
    ensures s.aifs == [Aif(0, AifOpen), Aif(1, AifOpen)] && table.Inv() && table.devs == old(table.devs)
  {
    s := new SessionObj(table, Rx);
    var ret, i := s.Connect(0, {});
    assert s.aifs == [Aif(0, AifOpen)];
    ret, i := s.Connect(1, {});
  }

  /** An open that failed on its second interface: success, no graph, both interfaces back in AIF_OPEN. */
  method OpenWithoutGraph(table: DeviceTable) returns (s: SessionObj)
    requires table.Valid() && table.Inv() && |table.links| == 2
    modifies table
    ensures fresh(s) && s.table == table && s.Valid() && s.state == SessOpened && !s.graph
    ensures s.aifs == [Aif(0, AifOpen), Aif(1, AifOpen)]
    ensures forall p | 0 <= p < |table.links| :: table.devs[p].open == old(table.devs[p].open)
  {
    s := TwoWaiting(table);
    s.HoldsNothing();
    assert forall p | 0 <= p < |table.links| :: s.Surplus(p) == old(table.devs[p].open);
    var faults := {(ConnectMerge, 1)};
    assert FirstOpen(s.aifs, 0) && s.aifs[1].state.AifOpen? && !Joins(table.links, table.devs, s.aifs, faults, 1);
    var ret := s.Open(faults);
    forall p | 0 <= p < |table.links| ensures table.devs[p].open == old(table.devs[p].open) {
      CountNone(table.links, s.aifs, Live, p);
      assert s.Surplus(p) == table.devs[p].open;
    }
  }

  /** Disconnecting an interface such an open left in AIF_OPEN closes the device under another session. */
  method DisconnectUnopened() returns (open: nat, held: nat)
    ensures open == 0 && held == 1
  {
    var table := new DeviceTable([Link(None, None, false), Link(None, None, false)], 0);
    var a := OpenedSession(table);
    var b := OpenWithoutGraph(table);
    var ret := b.Disconnect(0, {});
    CountOne(table.links, a.aifs[0], 0);
    open, held := table.devs[0].open, Count(table.links, a.aifs, Live, 0);
  }
}
