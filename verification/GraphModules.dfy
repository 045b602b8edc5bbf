/**
 The list of tagged modules of a graph (service/src/graph.c): device switches edit it, prepare configures
 from it.  `started` are the devices whose start count is positive; `failing` are the instance ids whose
 configuration the DSP refuses.
 */
module GraphModules {
  import opened Common

  datatype Tag = EndpointRx | EndpointTx | InputMediaFormat | PcmDecoder | PcmEncoder | Spr | OtherTag

  datatype Direction = Rx | Tx

  datatype Module = Module(miid: nat, tag: Tag, dev: Option<nat>, configurable: bool, configured: bool)

  datatype GraphState = Closed | Opened | Prepared | Started | Stopped

  /** Allocations for a new endpoint: the module itself, which is in the list at once, then its key vector. */
  datatype Memory = Enough | NoModule | NoKeys

  /** One call of a module's configure function. */
  datatype Configure = Configure(miid: nat, ok: bool)

  predicate Endpoint(m: Module) {
    m.tag.EndpointRx? || m.tag.EndpointTx?
  }

  /** An endpoint whose device already runs is not configured again. */
  predicate Running(m: Module, started: set<nat>) {
    Endpoint(m) && m.dev.Some? && m.dev.value in started
  }

  /** `miid` belongs to a configurable module that is not a running endpoint. */
  predicate MayConfigure(mods: seq<Module>, started: set<nat>, miid: nat) {
    exists i | 0 <= i < |mods| :: mods[i].miid == miid && mods[i].configurable && !Running(mods[i], started)
  }

  predicate DistinctIds(mods: seq<Module>) {
    forall i, j | 0 <= i < j < |mods| :: mods[i].miid != mods[j].miid
  }

  predicate Present(mods: seq<Module>, miid: nat) {
    exists i | 0 <= i < |mods| :: mods[i].miid == miid
  }

  /** The modules apart from their configured flags. */
  function Shapes(mods: seq<Module>): (s: seq<Module>)
    ensures |s| == |mods| && forall i | 0 <= i < |s| :: s[i] == mods[i].(configured := false)
  {
    seq(|mods|, i requires 0 <= i < |mods| => mods[i].(configured := false))
  }

  function Streams(mods: seq<Module>): seq<Module> {
    if mods == [] then []
    else Streams(mods[..|mods| - 1]) + if Endpoint(mods[|mods| - 1]) then [] else [mods[|mods| - 1]]
  }

  function Endpoints(mods: seq<Module>): seq<Module> {
    if mods == [] then []
    else Endpoints(mods[..|mods| - 1]) + if Endpoint(mods[|mods| - 1]) then [mods[|mods| - 1]] else []
  }

  // ---------------------------------------------------------------- a device switch, as a function of the list

  /** What is left once every other device's endpoint is deleted. */
  function Kept(mods: seq<Module>, miid: nat): seq<Module> {
    if mods == [] then []
    else
      var m := mods[|mods| - 1];
      Kept(mods[..|mods| - 1], miid) + if Endpoint(m) && m.miid != miid then [] else [m]
  }

  /** The list after a switch to the device behind `ep`. */
  function Switched(mods: seq<Module>, ep: Module): seq<Module> {
    Kept(mods, ep.miid) + if Present(mods, ep.miid) then [] else [ep]
  }

  lemma {:induction false} KeptFrom(mods: seq<Module>, miid: nat, m: Module)
    requires m in Kept(mods, miid)
    ensures m in mods && (Endpoint(m) ==> m.miid == miid)
  {
    var n := |mods| - 1;
    if m in Kept(mods[..n], miid) {
      KeptFrom(mods[..n], miid, m);
    }
  }

  lemma {:induction false} KeptDistinct(mods: seq<Module>, miid: nat)
    requires DistinctIds(mods)
    ensures DistinctIds(Kept(mods, miid))
  {
    if mods != [] {
      var n := |mods| - 1;
      KeptDistinct(mods[..n], miid);
      forall i | 0 <= i < |Kept(mods[..n], miid)| ensures Kept(mods[..n], miid)[i].miid != mods[n].miid {
        KeptFrom(mods[..n], miid, Kept(mods[..n], miid)[i]);
      }
    }
  }

  lemma {:induction false} KeptStreams(mods: seq<Module>, miid: nat)
    ensures Streams(Kept(mods, miid)) == Streams(mods)
  {
    if mods != [] {
      var n := |mods| - 1;
      KeptStreams(mods[..n], miid);
      var k := Kept(mods[..n], miid);
      if Endpoint(mods[n]) && mods[n].miid != miid {
        assert k + [] == k;
      } else {
        assert (k + [mods[n]])[..|k|] == k;
      }
    }
  }

  lemma {:induction false} EndpointsAppend(mods: seq<Module>, m: Module)
    ensures Endpoints(mods + [m]) == Endpoints(mods) + if Endpoint(m) then [m] else []
  {
    assert (mods + [m])[..|mods|] == mods;
  }

  lemma {:induction false} LastIsNew(mods: seq<Module>)
    requires mods != [] && DistinctIds(mods)
    ensures !Present(mods[..|mods| - 1], mods[|mods| - 1].miid)
  {
    var rest := mods[..|mods| - 1];
    forall i | 0 <= i < |rest| ensures rest[i].miid != mods[|mods| - 1].miid {
      assert rest[i] == mods[i];
    }
  }

  /** The only endpoint that survives is the one with this id, if there is one. */
  lemma {:induction false} KeptEndpoints(mods: seq<Module>, miid: nat)
    requires DistinctIds(mods)
    ensures var e := Endpoints(Kept(mods, miid));
            if Present(Endpoints(mods), miid) then |e| == 1 && e[0].miid == miid else e == []
  {
    if mods != [] {
      var n := |mods| - 1;
      var m, k, e := mods[n], Kept(mods[..n], miid), Endpoints(mods[..n]);
      KeptEndpoints(mods[..n], miid);
      EndpointsAppend(k, m);
      assert k + [] == k && e + [] == e && Endpoints(k) + [] == Endpoints(k);
      PresentAppend(e, if Endpoint(m) then [m] else [], miid);
      if Endpoint(m) && m.miid == miid {
        LastIsNew(mods);
        PresentSplit(mods[..n], miid);
      }
    }
  }

  /** Each id sits among the streams or among the endpoints, and not in both. */
  lemma {:induction false} PresentSplit(mods: seq<Module>, miid: nat)
    ensures Present(mods, miid) <==> Present(Streams(mods), miid) || Present(Endpoints(mods), miid)
    ensures DistinctIds(mods) ==> !(Present(Streams(mods), miid) && Present(Endpoints(mods), miid))
  {
    if mods != [] {
      var n := |mods| - 1;
      PresentSplit(mods[..n], miid);
      PresentAppend(Streams(mods[..n]), if Endpoint(mods[n]) then [] else [mods[n]], miid);
      PresentAppend(Endpoints(mods[..n]), if Endpoint(mods[n]) then [mods[n]] else [], miid);
      PresentAppend(mods[..n], [mods[n]], miid);
      assert mods == mods[..n] + [mods[n]];
    }
  }

  lemma PresentAppend(a: seq<Module>, b: seq<Module>, miid: nat)
    ensures Present(a + b, miid) <==> Present(a, miid) || Present(b, miid)
    ensures |b| == 1 ==> (Present(b, miid) <==> b[0].miid == miid)
  {
    if Present(a, miid) {
      var i :| 0 <= i < |a| && a[i].miid == miid;
      assert (a + b)[i] == a[i];
    }
    if Present(b, miid) {
      var i :| 0 <= i < |b| && b[i].miid == miid;
      assert (a + b)[|a| + i] == b[i];
    }
  }

  /**
   A switch keeps ids distinct and the streams as they are, and leaves the new device's endpoint as the
   only endpoint exactly if no stream module carries its id.
   */
  lemma SwitchKeepsList(mods: seq<Module>, ep: Module)
    requires DistinctIds(mods) && Endpoint(ep)
    ensures DistinctIds(Switched(mods, ep)) && Streams(Switched(mods, ep)) == Streams(mods)
    ensures var e := Endpoints(Switched(mods, ep));
            |e| == 1 && e[0].miid == ep.miid <==> !Present(Streams(mods), ep.miid)
  {
    var k := Kept(mods, ep.miid);
    KeptDistinct(mods, ep.miid);
    KeptStreams(mods, ep.miid);
    KeptEndpoints(mods, ep.miid);
    PresentSplit(mods, ep.miid);
    if Present(mods, ep.miid) {
      assert Switched(mods, ep) == k;
    } else {
      assert Switched(mods, ep) == k + [ep] && Switched(mods, ep)[..|k|] == k;
      assert Streams(k) + [] == Streams(k);
      forall i | 0 <= i < |k| ensures k[i].miid != ep.miid {
        KeptFrom(mods, ep.miid, k[i]);
      }
    }
  }

  /** The list with the first module of this id marked for configuring anew. */
  function Unmarked(mods: seq<Module>, miid: nat): (r: seq<Module>)
    ensures |r| == |mods| && forall i | 0 <= i < |r| :: r[i] == mods[i].(configured := r[i].configured)
  {
    if mods == [] then []
    else if mods[0].miid == miid then [mods[0].(configured := false)] + mods[1..]
    else [mods[0]] + Unmarked(mods[1..], miid)
  }

  lemma {:induction false} UnmarkedAt(mods: seq<Module>, miid: nat, i: nat)
    requires i < |mods| && mods[i].miid == miid && forall k | 0 <= k < i :: mods[k].miid != miid
    ensures Unmarked(mods, miid) == mods[i := mods[i].(configured := false)]
  {
    if i > 0 {
      UnmarkedAt(mods[1..], miid, i - 1);
    }
  }

  lemma {:induction false} UnmarkedNone(mods: seq<Module>, miid: nat)
    requires !Present(mods, miid)
    ensures Unmarked(mods, miid) == mods
  {
    if mods != [] {
      assert mods[0].miid != miid;
      assert forall i | 0 <= i < |mods| - 1 :: mods[1..][i] == mods[i + 1];
      UnmarkedNone(mods[1..], miid);
    }
  }

  /** The list that graph_change configures from. */
  function ChangedList(mods: seq<Module>, ep: Module, memory: Memory): seq<Module> {
    var kept := Kept(Unmarked(mods, ep.miid), ep.miid);
    if Present(mods, ep.miid) || memory.NoModule? then kept else kept + [ep]
  }

  /** The list that graph_add configures from. */
  function AddedList(mods: seq<Module>, ep: Module, memory: Memory): seq<Module> {
    if Present(mods, ep.miid) || memory.NoModule? then Unmarked(mods, ep.miid) else Unmarked(mods, ep.miid) + [ep]
  }

  lemma AddedKeeps(mods: seq<Module>, ep: Module, memory: Memory)
    requires !ep.configured
    ensures var list := AddedList(mods, ep, memory); var fits := Present(mods, ep.miid) || !memory.NoModule?;
            && Shapes(list) == Shapes(mods) + (if Present(mods, ep.miid) || memory.NoModule? then [] else [ep])
            && (fits ==> Present(list, ep.miid)) && (DistinctIds(mods) ==> DistinctIds(list))
  {
    var u := Unmarked(mods, ep.miid);
    assert Shapes(u) == Shapes(mods);
    if Present(mods, ep.miid) {
      var i :| 0 <= i < |mods| && mods[i].miid == ep.miid;
      assert u[i].miid == ep.miid;
    } else {
      UnmarkedNone(mods, ep.miid);
      assert (u + [ep])[|u|] == ep;
      assert Shapes(u + [ep]) == Shapes(u) + [ep];
    }
  }

  /** No module that the loop is to configure is refused by the DSP. */
  predicate NoneFails(loop: Loop, mods: seq<Module>, started: set<nat>, failing: set<nat>) {
    forall i | 0 <= i < |mods| :: Due(loop, mods[i], started) ==> mods[i].miid !in failing
  }

  // ---------------------------------------------------------------- the graph object

  /** How often configuring `miid` succeeded. */
  function Successes(log: seq<Configure>, miid: nat): nat {
    if log == [] then 0
    else Successes(log[..|log| - 1], miid) + if log[|log| - 1] == Configure(miid, true) then 1 else 0
  }

  lemma SuccessesAppend(log: seq<Configure>, c: Configure, miid: nat)
    ensures Successes(log + [c], miid) == Successes(log, miid) + if c == Configure(miid, true) then 1 else 0
  {
    assert (log + [c])[..|log|] == log;
  }

  /** A module that a session of this kind must not contain. */
  predicate Misplaced(m: Module, noHost: bool, dir: Direction) {
    || (m.tag.InputMediaFormat? && noHost)
    || (m.tag.PcmDecoder? && dir.Tx?)
    || (m.tag.PcmEncoder? && dir.Rx?)
  }

  /** The loops that configure modules: of graph_prepare, of graph_change and of graph_add. */
  datatype Loop = InPrepare | InChange | InAdd

  /**
   The loop calls this module's configure function: graph_prepare endpoints every time and others until they
   are configured, graph_change devices that neither run nor are configured, graph_add what is not
   configured and the SPR module again.
   */
  predicate Due(loop: Loop, m: Module, started: set<nat>) {
    m.configurable
    && match loop
       case InPrepare => !Running(m, started) && (Endpoint(m) || !m.configured)
       case InChange => !m.configured && m.dev.Some? && m.dev.value !in started
       case InAdd => !Running(m, started) && (!m.configured || m.tag.Spr?)
  }

  /** The log once the first `n` modules are through: one successful configure call for each that is due, in list order. */
  function Logged(loop: Loop, log: seq<Configure>, mods: seq<Module>, n: nat, started: set<nat>): (r: seq<Configure>)
    requires n <= |mods|
    ensures log <= r
  {
    if n == 0 then log
    else
      var rest := Logged(loop, log, mods, n - 1, started);
      if Due(loop, mods[n - 1], started) then rest + [Configure(mods[n - 1].miid, true)] else rest
  }

  /** graph_prepare fails at this module. */
  predicate Refused(m: Module, noHost: bool, dir: Direction, started: set<nat>, failing: set<nat>) {
    (!m.configured && Misplaced(m, noHost, dir)) || (Due(InPrepare, m, started) && m.miid in failing)
  }

  lemma DueMayConfigure(mods: seq<Module>, i: nat, started: set<nat>)
    requires i < |mods| && Due(InPrepare, mods[i], started)
    ensures MayConfigure(Shapes(mods), started, mods[i].miid)
  {
    var shapes := Shapes(mods);
    assert shapes[i].miid == mods[i].miid && shapes[i].configurable && !Running(shapes[i], started);
  }

  /** Every due module has its call, behind those of the due modules before it. */
  lemma {:induction false} DueIsLogged(loop: Loop, log: seq<Configure>, mods: seq<Module>, n: nat, started: set<nat>, i: nat)
    requires i < n <= |mods| && Due(loop, mods[i], started)
    ensures var at := |Logged(loop, log, mods, i, started)|; var r := Logged(loop, log, mods, n, started);
            at < |r| && r[at] == Configure(mods[i].miid, true)
  {
    if i < n - 1 {
      DueIsLogged(loop, log, mods, n - 1, started, i);
    }
  }

  /** Every call is that of a due module. */
  lemma {:induction false} LoggedIsDue(loop: Loop, log: seq<Configure>, mods: seq<Module>, n: nat, started: set<nat>, k: nat)
    returns (i: nat)
    requires n <= |mods| && |log| <= k < |Logged(loop, log, mods, n, started)|
    ensures i < n && Due(loop, mods[i], started) && k == |Logged(loop, log, mods, i, started)|
    ensures Logged(loop, log, mods, n, started)[k] == Configure(mods[i].miid, true)
  {
    if k < |Logged(loop, log, mods, n - 1, started)| {
      i := LoggedIsDue(loop, log, mods, n - 1, started, k);
    } else {
      i := n - 1;
    }
  }

  /** Whatever graph_prepare configures is no running endpoint. */
  lemma LoggedMayConfigure(log: seq<Configure>, mods: seq<Module>, n: nat, started: set<nat>, k: nat)
    requires n <= |mods| && |log| <= k < |Logged(InPrepare, log, mods, n, started)|
    ensures MayConfigure(Shapes(mods), started, Logged(InPrepare, log, mods, n, started)[k].miid)
  {
    var i := LoggedIsDue(InPrepare, log, mods, n, started, k);
    DueMayConfigure(mods, i, started);
  }

  /** One graph_prepare: the kind of session, the running devices, what the DSP refuses, what the graph layer answers. */
  datatype PrepareRound =
    PrepareRound(noHost: bool, dir: Direction, started: set<nat>, failing: set<nat>, gslFails: bool)

  /** The first module that a round refuses, or how many modules there are. */
  function FirstRefused(mods: seq<Module>, r: PrepareRound): (k: nat)
    ensures k <= |mods| && (k < |mods| ==> Refused(mods[k], r.noHost, r.dir, r.started, r.failing))
    ensures forall i | 0 <= i < k :: !Refused(mods[i], r.noHost, r.dir, r.started, r.failing)
  {
    if mods == [] then 0
    else if Refused(mods[0], r.noHost, r.dir, r.started, r.failing) then 0
    else 1 + FirstRefused(mods[1..], r)
  }

  /** The list once the first `n` modules are through a prepare. */
  function Through(mods: seq<Module>, n: nat): (r: seq<Module>)
    ensures |r| == |mods|
    ensures forall i | 0 <= i < |r| :: r[i] == mods[i].(configured := mods[i].configured || (i < n && mods[i].configurable))
  {
    seq(|mods|, i requires 0 <= i < |mods| => mods[i].(configured := mods[i].configured || (i < n && mods[i].configurable)))
  }

  datatype Listing = Listing(mods: seq<Module>, state: GraphState, log: seq<Configure>)

  /** What one graph_prepare makes of the list, the state and the calls made. */
  function AfterPrepare(g: Listing, r: PrepareRound): Listing {
    if g.state.Prepared? then g
    else
      var k := FirstRefused(g.mods, r); var calls := Logged(InPrepare, g.log, g.mods, k, r.started);
      if k == |g.mods| then Listing(Through(g.mods, k), if r.gslFails then g.state else Prepared, calls)
      else if !g.mods[k].configured && Misplaced(g.mods[k], r.noHost, r.dir) then Listing(Through(g.mods, k), g.state, calls)
      else Listing(Through(g.mods, k), g.state, calls + [Configure(g.mods[k].miid, false)])
  }

  function AfterPrepares(g: Listing, rounds: seq<PrepareRound>): Listing {
    if rounds == [] then g else AfterPrepare(AfterPrepares(g, rounds[..|rounds| - 1]), rounds[|rounds| - 1])
  }

  /** A round that refuses nothing calls an endpoint whose device does not run, however often it was called before. */
  lemma EndpointEveryRound(g: Listing, r: PrepareRound, i: nat)
    requires !g.state.Prepared? && FirstRefused(g.mods, r) == |g.mods|
    requires i < |g.mods| && g.mods[i].configurable && (g.mods[i].tag.EndpointRx? || g.mods[i].tag.EndpointTx?)
    requires g.mods[i].dev.Some? ==> g.mods[i].dev.value !in r.started
    ensures var log := AfterPrepare(g, r).log;
            |g.log| < |log| && g.log <= log && Configure(g.mods[i].miid, true) in log[|g.log|..]
  {
    var at := |Logged(InPrepare, g.log, g.mods, i, r.started)|;
    DueIsLogged(InPrepare, g.log, g.mods, |g.mods|, r.started, i);
    assert AfterPrepare(g, r).log[|g.log|..][at - |g.log|] == Configure(g.mods[i].miid, true);
  }

  class Graph {
    var mods: seq<Module>
    var state: GraphState
    /** Every configure call made, in order. */
    var log: seq<Configure>

    /** No stream module was configured more often than its flag admits. */
    ghost predicate OnceOnly()
      reads this
    {
      && DistinctIds(mods)
      && forall i | 0 <= i < |mods| && !Endpoint(mods[i]) ::
           Successes(log, mods[i].miid) <= if mods[i].configured then 1 else 0
    }

    constructor (mods: seq<Module>)
      requires DistinctIds(mods)
      ensures this.mods == mods && state == Opened && log == [] && OnceOnly()
    {
      this.mods, state, log := mods, Opened, [];
    }

    /** Calls one module's configure function; on success the module is marked. */
    method ConfigureAt(i: nat, failing: set<nat>) returns (ret: Status)
      requires i < |mods|
      modifies this`mods, this`log
      ensures ret == if old(mods[i].miid) in failing then Foreign else Ok
      ensures mods == old(mods)[i := old(mods[i]).(configured := old(mods[i].configured) || ret.Ok?)]
      ensures log == old(log) + [Configure(mods[i].miid, ret.Ok?)]
      ensures old(OnceOnly()) && (Endpoint(mods[i]) || !old(mods[i].configured)) ==> OnceOnly()
    {
      ret := if mods[i].miid in failing then Foreign else Ok;
      ghost var was := log;
      log := log + [Configure(mods[i].miid, ret.Ok?)];
      if ret.Ok? {
        mods := mods[i := mods[i].(configured := true)];
      }
      forall k | 0 <= k < |mods| ensures Successes(log, mods[k].miid)
          == Successes(was, mods[k].miid) + if ret.Ok? && mods[k].miid == mods[i].miid then 1 else 0 {
        SuccessesAppend(was, Configure(mods[i].miid, ret.Ok?), mods[k].miid);
      }
    }

    /**
     graph_prepare: configures what is not configured yet, and endpoints every time, except those whose device
     runs already.  It succeeds exactly if no module is refused and the graph layer agrees.
     */
    method Prepare(noHost: bool, dir: Direction, started: set<nat>, failing: set<nat>, gslFails: bool) returns (ret: Status)
      modifies this
      ensures Shapes(mods) == Shapes(old(mods))
      ensures Listing(mods, state, log)
              == AfterPrepare(old(Listing(mods, state, log)), PrepareRound(noHost, dir, started, failing, gslFails))
      ensures old(state).Prepared? ==> ret.Ok? && mods == old(mods) && log == old(log) && state == Prepared
      ensures !old(state).Prepared? ==>
                (ret.Ok? <==> !gslFails && forall i | 0 <= i < |mods| :: !Refused(old(mods[i]), noHost, dir, started, failing))
      ensures ret.Ok? && !old(state).Prepared? ==>
                && state == Prepared
                && log == Logged(InPrepare, old(log), old(mods), |mods|, started)
                && (forall i | 0 <= i < |mods| :: mods[i].configured == (old(mods[i]).configured || mods[i].configurable))
                && (forall i | 0 <= i < |mods| :: Misplaced(mods[i], noHost, dir) ==> old(mods[i]).configured)
      ensures !ret.Ok? ==> state == old(state)
      ensures |log| >= |old(log)| && log[..|old(log)|] == old(log)
      ensures forall k | |old(log)| <= k < |log| :: MayConfigure(Shapes(old(mods)), started, log[k].miid)
      ensures old(OnceOnly()) ==> OnceOnly()
    {
      if state.Prepared? {
        return Ok;
      }
      ghost var done;
      ret, done := PrepareAll(noHost, dir, started, failing);
      forall k | |old(log)| <= k < |Logged(InPrepare, old(log), old(mods), done, started)|
        ensures MayConfigure(Shapes(old(mods)), started, log[k].miid)
      {
        LoggedMayConfigure(old(log), old(mods), done, started, k);
      }
      if done < |mods| && Due(InPrepare, old(mods[done]), started) {
        DueMayConfigure(old(mods), done, started);
      }
      if ret.Ok? {
        if gslFails {
          return Foreign;
        }
        state := Prepared;
      }
    }

    /** graph_prepare's loop: it stops at the first module that is refused, having configured those before it. */
    method PrepareAll(noHost: bool, dir: Direction, started: set<nat>, failing: set<nat>) returns (ret: Status, ghost done: nat)
      modifies this`mods, this`log
      ensures Shapes(mods) == Shapes(old(mods)) && |mods| == |old(mods)| && done <= |mods|
      ensures ret.Ok? ==> done == |mods|
      ensures !ret.Ok? ==> done < |mods| && Refused(old(mods[done]), noHost, dir, started, failing)
      ensures forall k | 0 <= k < done :: !Refused(old(mods[k]), noHost, dir, started, failing)
      ensures mods == Through(old(mods), done)
      ensures var calls := Logged(InPrepare, old(log), old(mods), done, started);
              log == if done < |mods| && Due(InPrepare, old(mods[done]), started)
                        && (old(mods[done]).configured || !Misplaced(mods[done], noHost, dir))
                     then calls + [Configure(mods[done].miid, false)] else calls
      ensures old(OnceOnly()) ==> OnceOnly()
    {
      done := 0;
      for i := 0 to |mods|
        invariant Shapes(mods) == Shapes(old(mods)) && done == i
        invariant mods == Through(old(mods), i)
        invariant forall k | 0 <= k < i :: !Refused(old(mods[k]), noHost, dir, started, failing)
        invariant log == Logged(InPrepare, old(log), old(mods), i, started)
        invariant old(OnceOnly()) ==> OnceOnly()
      {
        ret := PrepareAt(i, noHost, dir, started, failing);
        if !ret.Ok? {
          return;
        }
        done := i + 1;
      }
      ret := Ok;
    }

    /** One round of graph_prepare's loop. */
    method PrepareAt(i: nat, noHost: bool, dir: Direction, started: set<nat>, failing: set<nat>) returns (ret: Status)
      requires i < |mods|
      modifies this`mods, this`log
      ensures |mods| == |old(mods)| && mods == old(mods)[i := old(mods[i]).(configured := mods[i].configured)]
      ensures ret.Ok? <==> !Refused(old(mods[i]), noHost, dir, started, failing)
      ensures mods[i].configured == (old(mods[i]).configured || (ret.Ok? && mods[i].configurable))
      ensures log == if Due(InPrepare, old(mods[i]), started) && (ret.Ok? || old(mods[i]).configured || !Misplaced(mods[i], noHost, dir))
                     then old(log) + [Configure(mods[i].miid, ret.Ok?)] else old(log)
      ensures old(OnceOnly()) ==> OnceOnly()
    {
      var m := mods[i];
      ret := Ok;
      if m.configured && !Endpoint(m) {
        return;
      }
      if !m.configured && Misplaced(m, noHost, dir) {
        return Invalid;
      }
      if m.configurable {
        if Running(m, started) {
          mods := mods[i := m.(configured := true)];
        } else {
          ret := ConfigureAt(i, failing);
        }
      }
    }

    /** Prepares, whatever their outcomes, configure each stream module at most once. */
    method RunPrepares(rounds: seq<PrepareRound>)
      requires OnceOnly()
      modifies this
      ensures Shapes(mods) == Shapes(old(mods)) && DistinctIds(mods)
      ensures Listing(mods, state, log) == AfterPrepares(old(Listing(mods, state, log)), rounds)
      ensures forall i | 0 <= i < |mods| && !mods[i].tag.EndpointRx? && !mods[i].tag.EndpointTx? ::
                Successes(log, mods[i].miid) <= 1
    {
      for r := 0 to |rounds|
        invariant OnceOnly() && Shapes(mods) == Shapes(old(mods))
        invariant Listing(mods, state, log) == AfterPrepares(old(Listing(mods, state, log)), rounds[..r])
      {
        assert rounds[..r + 1][..r] == rounds[..r];
        var p := rounds[r];
        var _ := Prepare(p.noHost, p.dir, p.started, p.failing, p.gslFails);
      }
      assert rounds[..|rounds|] == rounds;
    }

    /** Looks for a module by instance id; a module that is found will be configured anew. */
    method FindAndUnmark(miid: nat) returns (found: bool)
      modifies this`mods
      ensures found == Present(old(mods), miid) && Shapes(mods) == Shapes(old(mods)) && mods == Unmarked(old(mods), miid)
      ensures DistinctIds(mods) ==> forall i | 0 <= i < |mods| ::
                mods[i] == if mods[i].miid == miid then old(mods[i]).(configured := false) else old(mods[i])
    {
      var i := 0;
      while i < |mods| && mods[i].miid != miid
        invariant i <= |mods| && forall k | 0 <= k < i :: mods[k].miid != miid
      {
        i := i + 1;
      }
      found := i < |mods|;
      if found {
        UnmarkedAt(mods, miid, i);
        mods := mods[i := mods[i].(configured := false)];
      } else {
        UnmarkedNone(mods, miid);
      }
    }

    /** Deletes every endpoint that is not `miid` from the list. */
    method DeleteOthers(miid: nat)
      modifies this`mods
      ensures mods == Kept(old(mods), miid)
    {
      var i := 0;
      ghost var all, done := mods, 0;
      assert all[..0] == [];
      while i < |mods|
        invariant i <= |mods| && done <= |all|
        invariant mods[..i] == Kept(all[..done], miid) && mods[i..] == all[done..]
        decreases |mods| - i
      {
        assert all[..done + 1][..done] == all[..done];
        assert mods[i] == mods[i..][0] && mods[i + 1..] == mods[i..][1..] == all[done + 1..];
        if Endpoint(mods[i]) && mods[i].miid != miid {
          ghost var front := mods[..i];
          mods := mods[..i] + mods[i + 1..];
          assert mods[..i] == front && mods[i..] == all[done + 1..];
          assert Kept(all[..done], miid) + [] == Kept(all[..done], miid);
        } else {
          assert mods[..i + 1] == mods[..i] + [mods[i]];
          i := i + 1;
        }
        done := done + 1;
      }
      assert mods[..i] == mods && all[..done] == all;
    }

    /** Puts a new endpoint at the end of the list, as far as memory allows. */
    method Append(ep: Module, memory: Memory) returns (ret: Status)
      requires !ep.configured
      modifies this`mods
      ensures ret == if memory.Enough? then Ok else NoMem
      ensures mods == if memory.NoModule? then old(mods) else old(mods) + [ep]
      ensures Shapes(mods) == Shapes(old(mods)) + if memory.NoModule? then [] else [ep]
    {
      if memory.NoModule? {
        return NoMem;
      }
      mods := mods + [ep];
      assert Shapes(mods) == Shapes(old(mods)) + [ep];
      ret := if memory.NoKeys? then NoMem else Ok;
    }

    /** The list part of graph_change: the switched list, unless there is no memory for an endpoint that is not in it yet. */
    method SwitchTo(ep: Module, memory: Memory) returns (ret: Status)
      requires Endpoint(ep) && !ep.configured
      modifies this`mods
      ensures ret == if Present(old(mods), ep.miid) || memory.Enough? then Ok else NoMem
      ensures mods == ChangedList(old(mods), ep, memory)
      ensures Shapes(mods) == if !Present(old(mods), ep.miid) && memory.NoModule? then Kept(Shapes(old(mods)), ep.miid)
                              else Switched(Shapes(old(mods)), ep)
    {
      PresentShapes(mods, ep.miid);
      var present := FindAndUnmark(ep.miid);
      KeptShapes(mods, ep.miid);
      DeleteOthers(ep.miid);
      ret := Ok;
      if !present {
        ret := Append(ep, memory);
      }
    }

    /** graph_change's last loop: devices that do not run yet. */
    method ConfigureIdle(started: set<nat>, failing: set<nat>) returns (ret: Status)
      modifies this`mods, this`log
      ensures |mods| == |old(mods)| && Shapes(mods) == Shapes(old(mods))
      ensures ret.Ok? <==> NoneFails(InChange, old(mods), started, failing)
      ensures ret.Ok? ==> log == Logged(InChange, old(log), old(mods), |mods|, started)
      ensures ret.Ok? ==> forall i | 0 <= i < |mods| ::
                            mods[i].configured == (old(mods[i]).configured || Due(InChange, old(mods[i]), started))
    {
      for i := 0 to |mods|
        invariant |mods| == |old(mods)| && Shapes(mods) == Shapes(old(mods))
        invariant forall k | i <= k < |mods| :: mods[k] == old(mods[k])
        invariant forall k | 0 <= k < i :: Due(InChange, old(mods[k]), started) ==> old(mods[k]).miid !in failing
        invariant log == Logged(InChange, old(log), old(mods), i, started)
        invariant forall k | 0 <= k < i :: mods[k].configured == (old(mods[k]).configured || Due(InChange, old(mods[k]), started))
      {
        var m := mods[i];
        if m.configurable && !m.configured && m.dev.Some? && m.dev.value !in started {
          ret := ConfigureAt(i, failing);
          if !ret.Ok? {
            assert mods[i].miid == old(mods[i]).miid;
            return;
          }
        }
      }
      ret := Ok;
    }

    /**
     graph_change with a device: the list becomes the switched list, whatever happens to the graph
     afterwards; without memory for a new endpoint it is left with no endpoint at all.
     */
    method Change(ep: Module, started: set<nat>, failing: set<nat>, infoFails: bool, memory: Memory, gslFails: bool)
      returns (ret: Status)
      requires Endpoint(ep) && !ep.configured
      modifies this`mods, this`log
      ensures infoFails ==> !ret.Ok? && mods == old(mods)
      ensures !infoFails ==>
                var starved := !Present(old(mods), ep.miid) && !memory.Enough?;
                && (starved || gslFails ==> !ret.Ok?)
                && Shapes(mods) == if starved && memory.NoModule? then Kept(Shapes(old(mods)), ep.miid)
                                   else Switched(Shapes(old(mods)), ep)
      ensures ret.Ok? <==>
                && !infoFails && !gslFails && (Present(old(mods), ep.miid) || memory.Enough?)
                && NoneFails(InChange, ChangedList(old(mods), ep, memory), started, failing)
      ensures ret.Ok? ==> Shapes(mods) == Switched(Shapes(old(mods)), ep)
      ensures ret.Ok? ==> var list := ChangedList(old(mods), ep, memory);
                && |mods| == |list| && log == Logged(InChange, old(log), list, |list|, started)
                && forall i | 0 <= i < |mods| :: mods[i] == list[i].(configured := list[i].configured || Due(InChange, list[i], started))
      ensures DistinctIds(old(mods)) ==> DistinctIds(mods)
      ensures ret.Ok? ==> forall i | 0 <= i < |mods| ::
                mods[i].configurable && mods[i].dev.Some? && mods[i].dev.value !in started ==> mods[i].configured
    {
      if infoFails {
        return Foreign;
      }
      ret := SwitchTo(ep, memory);
      if ret.Ok? {
        if gslFails {
          ret := Foreign;
        } else {
          ret := ConfigureIdle(started, failing);
        }
      }
      if DistinctIds(old(mods)) {
        DistinctShapes(old(mods));
        SwitchKeepsList(Shapes(old(mods)), ep);
        KeptDistinct(Shapes(old(mods)), ep.miid);
        DistinctShapes(mods);
      }
    }

    /** graph_add's last loop: what is not configured, and the SPR module again. */
    method ConfigureAdded(started: set<nat>, failing: set<nat>) returns (ret: Status)
      modifies this`mods, this`log
      ensures |mods| == |old(mods)| && Shapes(mods) == Shapes(old(mods))
      ensures ret.Ok? <==> NoneFails(InAdd, old(mods), started, failing)
      ensures ret.Ok? ==> log == Logged(InAdd, old(log), old(mods), |mods|, started)
      ensures ret.Ok? ==> forall i | 0 <= i < |mods| ::
                mods[i].configured == (old(mods[i]).configured || mods[i].configurable || Running(mods[i], started))
    {
      for i := 0 to |mods|
        invariant |mods| == |old(mods)| && Shapes(mods) == Shapes(old(mods))
        invariant forall k | i <= k < |mods| :: mods[k] == old(mods[k])
        invariant forall k | 0 <= k < i :: Due(InAdd, old(mods[k]), started) ==> old(mods[k]).miid !in failing
        invariant log == Logged(InAdd, old(log), old(mods), i, started)
        invariant forall k | 0 <= k < i ::
                    mods[k].configured == (old(mods[k]).configured || mods[k].configurable || Running(mods[k], started))
      {
        var m := mods[i];
        if !m.configured || m.tag.Spr? {
          if Running(m, started) {
            mods := mods[i := m.(configured := true)];
          } else if m.configurable {
            ret := ConfigureAt(i, failing);
            if !ret.Ok? {
              assert mods[i].miid == old(mods[i]).miid;
              return;
            }
          }
        }
      }
      ret := Ok;
    }

    /** The list part of graph_add. */
    method Join(ep: Module, memory: Memory) returns (ret: Status)
      requires Endpoint(ep) && !ep.configured
      modifies this`mods
      ensures ret == if Present(old(mods), ep.miid) || memory.Enough? then Ok else NoMem
      ensures mods == AddedList(old(mods), ep, memory)
      ensures Shapes(mods) == Shapes(old(mods)) + if Present(old(mods), ep.miid) || memory.NoModule? then [] else [ep]
      ensures ret.Ok? ==> Present(mods, ep.miid)
      ensures DistinctIds(old(mods)) ==> DistinctIds(mods)
    {
      var present := FindAndUnmark(ep.miid);
      ret := Ok;
      if !present {
        ret := Append(ep, memory);
      }
      AddedKeeps(old(mods), ep, memory);
    }

    /** graph_add with a device: its endpoint joins at the end unless its id is already there. */
    method Add(ep: Module, started: set<nat>, failing: set<nat>, gslFails: bool, infoFails: bool, memory: Memory)
      returns (ret: Status)
      requires Endpoint(ep) && !ep.configured
      modifies this`mods, this`log
      ensures state.Closed? || gslFails || infoFails ==> !ret.Ok? && mods == old(mods)
      ensures !state.Closed? && !gslFails && !infoFails ==>
                && (!Present(old(mods), ep.miid) && !memory.Enough? ==> ret == NoMem)
                && Shapes(mods) == Shapes(old(mods)) + if Present(old(mods), ep.miid) || memory.NoModule? then [] else [ep]
      ensures var list := AddedList(old(mods), ep, memory); var active := state.Started? || state.Prepared?;
              && (ret.Ok? <==>
                    && !state.Closed? && !gslFails && !infoFails && (Present(old(mods), ep.miid) || memory.Enough?)
                    && (active ==> NoneFails(InAdd, list, started, failing)))
              && (ret.Ok? && active ==> log == Logged(InAdd, old(log), list, |list|, started))
              && (ret.Ok? && !active ==> mods == list && log == old(log))
      ensures ret.Ok? ==> Present(mods, ep.miid)
      ensures DistinctIds(old(mods)) ==> DistinctIds(mods)
      ensures ret.Ok? && (state.Started? || state.Prepared?) ==>
                forall i | 0 <= i < |mods| :: mods[i].configurable ==> mods[i].configured
    {
      if state.Closed? {
        return Invalid;
      }
      if gslFails || infoFails {
        return Foreign;
      }
      ret := Join(ep, memory);
      ghost var list := mods;
      if ret.Ok? && (state.Started? || state.Prepared?) {
        ret := ConfigureAdded(started, failing);
      }
      SameShapes(list, mods, ep.miid);
    }
  }

  /** Configuring changes no id. */
  lemma SameShapes(a: seq<Module>, b: seq<Module>, miid: nat)
    requires Shapes(a) == Shapes(b)
    ensures (Present(a, miid) <==> Present(b, miid)) && (DistinctIds(a) <==> DistinctIds(b))
  {
    PresentShapes(a, miid);
    PresentShapes(b, miid);
    DistinctShapes(a);
    DistinctShapes(b);
  }

  lemma DistinctShapes(mods: seq<Module>)
    ensures DistinctIds(Shapes(mods)) <==> DistinctIds(mods)
  {
    if DistinctIds(Shapes(mods)) {
      forall i, j | 0 <= i < j < |mods| ensures mods[i].miid != mods[j].miid {
        assert Shapes(mods)[i].miid != Shapes(mods)[j].miid;
      }
    }
  }

  /** Deleting endpoints does not look at the configured flags. */
  lemma {:induction false} KeptShapes(mods: seq<Module>, miid: nat)
    ensures Shapes(Kept(mods, miid)) == Kept(Shapes(mods), miid)
  {
    if mods != [] {
      KeptShapes(mods[..|mods| - 1], miid);
      assert Shapes(mods)[..|mods| - 1] == Shapes(mods[..|mods| - 1]);
    }
  }

  lemma PresentShapes(mods: seq<Module>, miid: nat)
    ensures Present(Shapes(mods), miid) <==> Present(mods, miid)
  {
    if Present(mods, miid) {
      var i :| 0 <= i < |mods| && mods[i].miid == miid;
      assert Shapes(mods)[i].miid == miid;
    }
  }
}
