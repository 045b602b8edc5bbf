/**
 One session and the audio interfaces in its pool (service/src/session_obj.c), in a tunnel mode
 and in the build that prepares devices while starting.  Every call into the graph layer, the PCM
 driver or the metadata merge may fail: `faults` names the call sites that do, per interface.
 */
module Sessions {
  import opened Common
  import opened Devices

  datatype AifState = AifClosed | AifClose | AifOpen | AifOpened | AifStopped | AifPrepared | AifStarted

  datatype SessState = SessClosed | SessOpened | SessPrepared | SessStarted | SessStopped

  datatype Direction = Rx | Tx

  datatype Aif = Aif(dev: nat, state: AifState)

  /** Places where a call out of this file can fail. */
  datatype Site =
    | ConnectMerge | PcmOpen | GraphOpen | RegisterCallback | GraphChange | GraphAdd
    | SetSessionParams | SetAifParams | SetDeviceParams | SetTagParams
    | DisconnectMerge | DisconnectAifMerge | PcmClose | PcmStop | PcmPrepare
    | PrepareDeviceParams | GraphClose | GraphPrepare | GraphStart | GraphStop | StartCheck | EchoRef | Loopback

  type Faults = set<(Site, nat)>

  /**
   Live states do not sort below AIF_OPENED: the interface holds its device open.
   Startable ones are the live ones a start moves on.
   */
  datatype Phase = Live | Startable | Started

  predicate In(s: AifState, phase: Phase) {
    match s
    case AifOpened | AifStopped | AifPrepared => phase != Started
    case AifStarted => phase != Startable
    case _ => false
  }

  /** The interface was prepared and has held its device since. */
  predicate Prepped(s: AifState) {
    s.AifPrepared? || s.AifStarted? || s.AifStopped?
  }

  /** No device loses its preparation. */
  predicate Grown(a: seq<Device>, b: seq<Device>) {
    |a| == |b| && forall p | 0 <= p < |a| :: a[p].prepare > 0 ==> b[p].prepare > 0
  }

  /** Devices were only closed, and none that is still open lost its preparation. */
  predicate Shrunk(a: seq<Device>, b: seq<Device>) {
    |a| == |b| && forall p | 0 <= p < |a| :: b[p].open <= a[p].open && (b[p].open > 0 ==> b[p].prepare == a[p].prepare)
  }

  /** No device that is still open lost its preparation. */
  predicate Keeps(a: seq<Device>, b: seq<Device>) {
    |a| == |b| && forall p | 0 <= p < |a| :: a[p].prepare > 0 ==> b[p].prepare > 0 || b[p].open == 0
  }

  lemma GrewThenShrank(a: seq<Device>, b: seq<Device>, c: seq<Device>)
    requires Grown(a, b) && Shrunk(b, c)
    ensures Keeps(a, c)
  {
  }

  predicate Mapped(links: seq<Link>, aifs: seq<Aif>) {
    forall i | 0 <= i < |aifs| :: aifs[i].dev < |links|
  }

  predicate IsPrepared(devs: seq<Device>, p: nat) {
    p < |devs| && devs[p].prepare > 0
  }

  /** Every interface that was prepared has a prepared device. */
  predicate Backed(links: seq<Link>, devs: seq<Device>, aifs: seq<Aif>)
    requires Mapped(links, aifs)
  {
    forall i | 0 <= i < |aifs| :: Prepped(aifs[i].state) ==> IsPrepared(devs, PcmOf(links, aifs[i].dev))
  }

  predicate NoneIn(aifs: seq<Aif>, phase: Phase) {
    forall i | 0 <= i < |aifs| :: !In(aifs[i].state, phase)
  }

  /** How many interfaces in a phase map to PCM device `p`. */
  function Count(links: seq<Link>, aifs: seq<Aif>, phase: Phase, p: nat): nat
    requires Mapped(links, aifs)
  {
    if aifs == [] then 0
    else
      var a := aifs[|aifs| - 1];
      Count(links, aifs[..|aifs| - 1], phase, p)
      + if In(a.state, phase) && PcmOf(links, a.dev) == p then 1 else 0
  }

  lemma {:induction false} CountUpdate(links: seq<Link>, aifs: seq<Aif>, phase: Phase, i: nat, s: AifState, p: nat)
    requires i < |aifs| && Mapped(links, aifs)
    ensures Mapped(links, aifs[i := aifs[i].(state := s)])
    ensures var here := PcmOf(links, aifs[i].dev) == p;
            Count(links, aifs[i := aifs[i].(state := s)], phase, p)
            == Count(links, aifs, phase, p)
               - (if here && In(aifs[i].state, phase) then 1 else 0) + (if here && In(s, phase) then 1 else 0)
  {
    var n := |aifs| - 1;
    var aifs' := aifs[i := aifs[i].(state := s)];
    if i == n {
      assert aifs'[..n] == aifs[..n];
    } else {
      assert aifs'[..n] == aifs[..n][i := aifs[i].(state := s)];
      CountUpdate(links, aifs[..n], phase, i, s, p);
    }
  }

  /** Pools that agree on the devices and on which interfaces are in the phases count the same. */
  lemma {:induction false} CountAgree(links: seq<Link>, a: seq<Aif>, b: seq<Aif>, sa: Phase, sb: Phase, p: nat)
    requires |a| == |b| && Mapped(links, a) && Mapped(links, b)
    requires forall i | 0 <= i < |a| :: a[i].dev == b[i].dev && (In(a[i].state, sa) <==> In(b[i].state, sb))
    ensures Count(links, a, sa, p) == Count(links, b, sb, p)
  {
    if a != [] {
      var n := |a| - 1;
      assert forall i | 0 <= i < n :: a[..n][i].dev == b[..n][i].dev;
      CountAgree(links, a[..n], b[..n], sa, sb, p);
    }
  }

  /** An interface in a phase is counted for its own PCM device. */
  lemma {:induction false} CountPositive(links: seq<Link>, aifs: seq<Aif>, phase: Phase, i: nat)
    requires i < |aifs| && Mapped(links, aifs) && In(aifs[i].state, phase)
    ensures Count(links, aifs, phase, PcmOf(links, aifs[i].dev)) > 0
  {
    if i < |aifs| - 1 {
      CountPositive(links, aifs[..|aifs| - 1], phase, i);
    }
  }

  lemma {:induction false} CountNone(links: seq<Link>, aifs: seq<Aif>, phase: Phase, p: nat)
    requires Mapped(links, aifs) && NoneIn(aifs, phase)
    ensures Count(links, aifs, phase, p) == 0
  {
    if aifs != [] {
      CountNone(links, aifs[..|aifs| - 1], phase, p);
    }
  }

  /** A device once a session in this state has disconnected from it: stopped only if the session is started. */
  function Released(x: Device, state: SessState): Device {
    AfterClose(if state.SessStarted? then AfterStop(x) else x)
  }

  /** Interface `i` is the last one in the phase. */
  predicate LastIn(aifs: seq<Aif>, phase: Phase, i: nat) {
    i < |aifs| && In(aifs[i].state, phase) && forall j | i < j < |aifs| :: !In(aifs[j].state, phase)
  }

  /** Interface `k` is the last one in the phase among the first `n`. */
  predicate LastAmong(aifs: seq<Aif>, phase: Phase, n: nat, k: nat)
    requires n <= |aifs|
  {
    k < n && In(aifs[k].state, phase) && forall j | k < j < n :: !In(aifs[j].state, phase)
  }

  /** The answer to giving back a count of `count`: only the last one reaches the hardware. */
  function Answer(count: int, hwFails: bool): Status {
    if count == 1 && hwFails then Foreign else Ok
  }

  /** How many interfaces of the pool are live. */
  function Total(aifs: seq<Aif>): (n: nat)
    ensures n == 0 <==> NoneIn(aifs, Live)
  {
    if aifs == [] then 0
    else
      Total(aifs[..|aifs| - 1]) + if In(aifs[|aifs| - 1].state, Live) then 1 else 0
  }

  /** `b` is `a` with some interfaces moved from AIF_OPEN to AIF_OPENED. */
  predicate Promoted(a: seq<Aif>, b: seq<Aif>) {
    |a| == |b| && forall i | 0 <= i < |a| :: b[i] == a[i] || (a[i].state.AifOpen? && b[i] == a[i].(state := AifOpened))
  }

  /** State of the interface on device `dev`; one that is not in the pool would be created AIF_CLOSED. */
  function StateOf(aifs: seq<Aif>, dev: nat): AifState {
    if aifs == [] then AifClosed
    else if aifs[0].dev == dev then aifs[0].state
    else StateOf(aifs[1..], dev)
  }

  /** Where the interface on device `dev` sits in the pool, or would be added. */
  function SlotOf(aifs: seq<Aif>, dev: nat): (i: nat)
    ensures i <= |aifs| && (i < |aifs| ==> aifs[i].dev == dev) && forall j | 0 <= j < i :: aifs[j].dev != dev
  {
    if aifs == [] || aifs[0].dev == dev then 0 else 1 + SlotOf(aifs[1..], dev)
  }

  /** The pool with an interface on device `dev`. */
  function Pooled(aifs: seq<Aif>, dev: nat): (r: seq<Aif>)
    ensures SlotOf(aifs, dev) < |r| && r[SlotOf(aifs, dev)].dev == dev && aifs <= r
  {
    if SlotOf(aifs, dev) < |aifs| then aifs else aifs + [Aif(dev, AifClosed)]
  }

  lemma {:induction false} StateOfAt(aifs: seq<Aif>, i: nat)
    requires i < |aifs| && forall j | 0 <= j < i :: aifs[j].dev != aifs[i].dev
    ensures StateOf(aifs, aifs[i].dev) == aifs[i].state
  {
    if i > 0 {
      StateOfAt(aifs[1..], i - 1);
    }
  }

  lemma {:induction false} StateOfAbsent(aifs: seq<Aif>, dev: nat)
    requires forall i | 0 <= i < |aifs| :: aifs[i].dev != dev
    ensures StateOf(aifs, dev) == AifClosed
  {
    if aifs != [] {
      StateOfAbsent(aifs[1..], dev);
    }
  }

  /** Disconnecting interface `i` with `openCount` interfaces open gives up before it closes the device. */
  predicate GivesUp(faults: Faults, i: nat, openCount: nat) {
    (DisconnectMerge, i) in faults || (openCount == 1 && (DisconnectAifMerge, i) in faults)
  }

  predicate MergesSucceed(faults: Faults, n: nat) {
    forall i | 0 <= i < n :: !GivesUp(faults, i, 1)
  }

  /** One of the first `n` interfaces is in AIF_OPENED, belongs to this pass of a start, and maps to `p`. */
  predicate Primed(links: seq<Link>, aifs: seq<Aif>, slimbus: bool, n: nat, p: nat)
    requires Mapped(links, aifs) && n <= |aifs|
  {
    exists j | 0 <= j < n ::
      aifs[j].state.AifOpened? && links[aifs[j].dev].slimbus == slimbus && PcmOf(links, aifs[j].dev) == p
  }

  /** In this pass over the first `n`, a failing prepare only meets devices that are prepared, or that an earlier interface prepares. */
  predicate PassPrepares(links: seq<Link>, devs: seq<Device>, aifs: seq<Aif>, faults: Faults, slimbus: bool, n: nat)
    requires Mapped(links, aifs) && n <= |aifs|
  {
    forall i | 0 <= i < n && aifs[i].state.AifOpened? && links[aifs[i].dev].slimbus == slimbus && (PcmPrepare, i) in faults ::
      var p := PcmOf(links, aifs[i].dev); IsPrepared(devs, p) || Primed(links, aifs, slimbus, i, p)
  }

  /** What is prepared after the first `n` interfaces of a pass. */
  ghost predicate PreparedAfter(links: seq<Link>, devs: seq<Device>, aifs: seq<Aif>, slimbus: bool, n: nat, devs': seq<Device>)
    requires Mapped(links, aifs) && n <= |aifs|
  {
    |devs'| == |devs|
    && forall p | 0 <= p < |devs| :: IsPrepared(devs', p) <==> IsPrepared(devs, p) || Primed(links, aifs, slimbus, n, p)
  }

  /** The same for the second pass, after everything in the first. */
  predicate LaterPrepares(links: seq<Link>, devs: seq<Device>, aifs: seq<Aif>, faults: Faults)
    requires Mapped(links, aifs)
  {
    forall i | 0 <= i < |aifs| && aifs[i].state.AifOpened? && !links[aifs[i].dev].slimbus && (PcmPrepare, i) in faults ::
      var p := PcmOf(links, aifs[i].dev);
      IsPrepared(devs, p) || Primed(links, aifs, true, |aifs|, p) || Primed(links, aifs, false, i, p)
  }

  /** One round of a pass. */
  lemma PassNext(links: seq<Link>, devs: seq<Device>, aifs: seq<Aif>, faults: Faults, slimbus: bool, i: nat,
                 mid: seq<Device>, next: seq<Device>, ok: bool)
    requires Mapped(links, aifs) && i < |aifs| && PcmOf(links, aifs[i].dev) < |devs|
    requires PreparedAfter(links, devs, aifs, slimbus, i, mid) && PassPrepares(links, devs, aifs, faults, slimbus, i)
    requires var waits := aifs[i].state.AifOpened? && links[aifs[i].dev].slimbus == slimbus; var p := PcmOf(links, aifs[i].dev);
             && (ok <==> waits && (PcmPrepare, i) in faults ==> IsPrepared(mid, p))
             && (ok ==> |next| == |mid| && forall q | 0 <= q < |mid| :: IsPrepared(next, q) <==> IsPrepared(mid, q) || (waits && q == p))
    ensures if ok then PreparedAfter(links, devs, aifs, slimbus, i + 1, next) && PassPrepares(links, devs, aifs, faults, slimbus, i + 1)
            else !PassPrepares(links, devs, aifs, faults, slimbus, |aifs|)
  {
  }

  /** The first pass decides what the second one finds. */
  lemma SecondPass(links: seq<Link>, devs: seq<Device>, aifs: seq<Aif>, faults: Faults, devs': seq<Device>, aifs': seq<Aif>)
    requires Mapped(links, aifs) && Mapped(links, aifs') && |devs| == |links| && |aifs'| == |aifs|
    requires forall i | 0 <= i < |aifs| :: aifs'[i].dev == aifs[i].dev
    requires forall i | 0 <= i < |aifs| && !links[aifs[i].dev].slimbus :: aifs'[i] == aifs[i]
    requires PreparedAfter(links, devs, aifs, true, |aifs|, devs')
    requires forall i | 0 <= i < |aifs| :: PcmOf(links, aifs[i].dev) < |devs|
    ensures PassPrepares(links, devs', aifs', faults, false, |aifs|) <==> LaterPrepares(links, devs, aifs, faults)
  {
    forall i, p: nat | 0 <= i < |aifs|
      ensures Primed(links, aifs', false, i, p) <==> Primed(links, aifs, false, i, p)
    {
      if Primed(links, aifs, false, i, p) {
        var j :| 0 <= j < i && aifs[j].state.AifOpened? && !links[aifs[j].dev].slimbus && PcmOf(links, aifs[j].dev) == p;
        assert aifs'[j] == aifs[j];
      }
      if Primed(links, aifs', false, i, p) {
        var j :| 0 <= j < i && aifs'[j].state.AifOpened? && !links[aifs'[j].dev].slimbus && PcmOf(links, aifs'[j].dev) == p;
        assert aifs'[j] == aifs[j];
      }
    }
  }

  /**
   Connecting interface `i` succeeds: `pcmOpen` says whether its PCM device is open already, `closed` whether
   the session is, and `first` whether no other interface is live.
   */
  predicate Connects(faults: Faults, i: nat, pcmOpen: bool, closed: bool, first: bool, graph: bool) {
    && (ConnectMerge, i) !in faults && ((PcmOpen, i) in faults ==> pcmOpen)
    && (if !first then graph && (GraphAdd, i) !in faults
        else if closed then (GraphOpen, i) !in faults && (RegisterCallback, i) !in faults
        else graph && (GraphChange, i) !in faults)
    && (closed ==> (SetSessionParams, i) !in faults)
    && (SetAifParams, i) !in faults && (SetDeviceParams, i) !in faults && (SetTagParams, i) !in faults
  }

  /**
   Whether a session has a graph after a connect that failed: an opened or changed graph whose callback or
   parameters fail is closed, while a failure before that, or of a further interface, leaves the graph alone.
   */
  predicate GraphLeft(faults: Faults, i: nat, pcmOpen: bool, closed: bool, first: bool, graph: bool) {
    var reached := (ConnectMerge, i) !in faults && ((PcmOpen, i) in faults ==> pcmOpen);
    var leg := if closed then (GraphOpen, i) !in faults else graph && (GraphChange, i) !in faults;
    graph && !(reached && first && leg)
  }

  predicate IsOpen(devs: seq<Device>, p: nat) {
    p < |devs| && devs[p].open > 0
  }

  /** An interface before `i` waits in AIF_OPEN for the same PCM device. */
  predicate Ahead(links: seq<Link>, aifs: seq<Aif>, i: nat, p: nat)
    requires Mapped(links, aifs) && i <= |aifs|
  {
    exists j | 0 <= j < i :: aifs[j].state.AifOpen? && PcmOf(links, aifs[j].dev) == p
  }

  /** Interface `i` can join the graph of a session being opened, the interfaces before it having joined. */
  predicate Joins(links: seq<Link>, devs: seq<Device>, aifs: seq<Aif>, faults: Faults, i: nat)
    requires Mapped(links, aifs) && i < |aifs|
  {
    var p := PcmOf(links, aifs[i].dev);
    Connects(faults, i, IsOpen(devs, p) || Ahead(links, aifs, i, p), true, false, true)
  }

  /** Every interface from `from` on that waits in AIF_OPEN can join. */
  predicate AllJoin(links: seq<Link>, devs: seq<Device>, aifs: seq<Aif>, faults: Faults, from: nat)
    requires Mapped(links, aifs)
  {
    forall i | from <= i < |aifs| && aifs[i].state.AifOpen? :: Joins(links, devs, aifs, faults, i)
  }

  /** Connecting the first interface does not change which of the others can join. */
  lemma JoinAfterFirst(links: seq<Link>, devs: seq<Device>, aifs: seq<Aif>, faults: Faults, k: nat, devs': seq<Device>)
    requires Mapped(links, aifs) && FirstOpen(aifs, k) && |devs'| == |devs| == |links| && PcmOf(links, aifs[k].dev) < |devs|
    requires forall p | 0 <= p < |devs| ::
               devs'[p].open > 0 <==> devs[p].open > 0 || p == PcmOf(links, aifs[k].dev)
    ensures var aifs' := aifs[k := aifs[k].(state := AifOpened)];
            Mapped(links, aifs') && (AllJoin(links, devs', aifs', faults, 0) <==> AllJoin(links, devs, aifs, faults, k + 1))
  {
    var aifs' := aifs[k := aifs[k].(state := AifOpened)];
    forall i | 0 <= i < |aifs'| && aifs'[i].state.AifOpen?
      ensures i > k && (Joins(links, devs', aifs', faults, i) <==> Joins(links, devs, aifs, faults, i))
    {
      var p := PcmOf(links, aifs[i].dev);
      if Ahead(links, aifs', i, p) {
        var j :| 0 <= j < i && aifs'[j].state.AifOpen? && PcmOf(links, aifs'[j].dev) == p;
        assert aifs[j].state.AifOpen? && PcmOf(links, aifs[j].dev) == p;
      }
      if Ahead(links, aifs, i, p) {
        var j :| 0 <= j < i && aifs[j].state.AifOpen? && PcmOf(links, aifs[j].dev) == p;
        assert j == k || aifs'[j] == aifs[j];
      }
      if p == PcmOf(links, aifs[k].dev) {
        assert aifs[k].state.AifOpen?;
        assert Ahead(links, aifs, i, p);
      }
    }
    forall i | k + 1 <= i < |aifs| && aifs[i].state.AifOpen? ensures aifs'[i].state.AifOpen? {
    }
  }

  /** The first interface in AIF_OPEN. */
  predicate FirstOpen(aifs: seq<Aif>, i: nat) {
    i < |aifs| && aifs[i].state.AifOpen? && forall j | 0 <= j < i :: !aifs[j].state.AifOpen?
  }

  /** What a pass of session_start can do to an interface. */
  predicate Advanced(a: Aif, b: Aif) {
    b == a || (In(a.state, Startable) && b.dev == a.dev && (b.state.AifPrepared? || b.state.AifStarted?))
  }

  // ---------------------------------------------------------------- what calls do, on values

  /** A session's own state. */
  datatype Snap = Snap(state: SessState, dir: Direction, aifs: seq<Aif>, graph: bool, ecRef: bool, loopback: bool)

  /** The pool with every live interface started. */
  function Launched(aifs: seq<Aif>): (r: seq<Aif>)
    ensures |r| == |aifs|
    ensures forall i | 0 <= i < |aifs| :: r[i] == if In(aifs[i].state, Live) then aifs[i].(state := AifStarted) else aifs[i]
  {
    seq(|aifs|, i requires 0 <= i < |aifs| => if In(aifs[i].state, Live) then aifs[i].(state := AifStarted) else aifs[i])
  }

  /** The pool with every started interface stopped. */
  function Halted(aifs: seq<Aif>): (r: seq<Aif>)
    ensures |r| == |aifs|
    ensures forall i | 0 <= i < |aifs| :: r[i] == if aifs[i].state.AifStarted? then aifs[i].(state := AifStopped) else aifs[i]
  {
    seq(|aifs|, i requires 0 <= i < |aifs| => if aifs[i].state.AifStarted? then aifs[i].(state := AifStopped) else aifs[i])
  }

  /** The pool with every live interface closed. */
  function Shut(aifs: seq<Aif>): (r: seq<Aif>)
    ensures |r| == |aifs|
    ensures forall i | 0 <= i < |aifs| :: r[i] == if In(aifs[i].state, Live) then aifs[i].(state := AifClosed) else aifs[i]
  {
    seq(|aifs|, i requires 0 <= i < |aifs| => if In(aifs[i].state, Live) then aifs[i].(state := AifClosed) else aifs[i])
  }

  /** The pool with every waiting interface opened. */
  function Opened(aifs: seq<Aif>): (r: seq<Aif>)
    ensures |r| == |aifs|
    ensures forall i | 0 <= i < |aifs| :: r[i] == if aifs[i].state.AifOpen? then aifs[i].(state := AifOpened) else aifs[i]
  {
    seq(|aifs|, i requires 0 <= i < |aifs| => if aifs[i].state.AifOpen? then aifs[i].(state := AifOpened) else aifs[i])
  }

  /** session_stop gets past the graph: a playback session needs its graph to stop, a capture session does not. */
  predicate CanStop(s: Snap, faults: Faults) {
    s.state.SessStarted? && (s.dir.Tx? || (s.graph && (GraphStop, 0) !in faults))
  }

  /** What a start that failed after its checks leaves of an interface: started ones are open, others may have been prepared. */
  predicate RolledBack(a: Aif, b: Aif) {
    b.dev == a.dev
    && match a.state
       case AifStarted => b.state == AifOpened
       case AifOpened | AifStopped | AifPrepared => b == a || b.state == AifOpened || b.state == AifPrepared
       case _ => b == a
  }

  /** The checks session_start makes before it touches a device. */
  predicate Barred(s: Snap, faults: Faults) {
    Total(s.aifs) == 0 || (s.dir.Tx? && (s.loopback || s.ecRef) && (StartCheck, 0) in faults)
  }

  /** session_prepare succeeds. */
  predicate CanPrepare(s: Snap, faults: Faults) {
    && Total(s.aifs) > 0 && (forall i | 0 <= i < |s.aifs| :: (PrepareDeviceParams, i) !in faults)
    && (s.state.SessStarted? || (s.graph && (GraphPrepare, 0) !in faults))
  }

  /** session_start succeeds, if every prepared interface has a prepared device. */
  predicate CanStart(links: seq<Link>, devs: seq<Device>, s: Snap, faults: Faults)
    requires Mapped(links, s.aifs)
  {
    && !Barred(s, faults) && s.graph && (GraphStart, 0) !in faults
    && PassPrepares(links, devs, s.aifs, faults, true, |s.aifs|) && LaterPrepares(links, devs, s.aifs, faults)
  }

  /** A newly opened interface can follow the session: prepared with it, and started with it. */
  predicate CanFollow(links: seq<Link>, devs: seq<Device>, s: Snap, faults: Faults)
    requires Mapped(links, s.aifs)
  {
    s.state.SessOpened? || (CanPrepare(s, faults) && (s.state.SessStarted? ==> CanStart(links, devs, s, faults)))
  }

  /**
   How a session and its start counts look after an interface was opened on it: `aifs` and `devs` with the
   interface open, `now`, `aifs'` and `devs'` once it followed the session's state `was`.
   */
  ghost predicate Followed(links: seq<Link>, was: SessState, aifs: seq<Aif>, devs: seq<Device>,
                           now: SessState, aifs': seq<Aif>, devs': seq<Device>)
    requires Mapped(links, aifs) && |devs| == |devs'| == |links|
  {
    if was.SessStarted? then
      && now == SessStarted && aifs' == Launched(aifs)
      && (forall p | 0 <= p < |links| :: devs'[p].start == devs[p].start + Count(links, aifs, Startable, p))
    else
      && now == (if was.SessOpened? then SessOpened else SessPrepared) && aifs' == aifs
      && (forall p | 0 <= p < |links| :: devs'[p].start == devs[p].start)
  }

  /** Following the session gets as far as starting devices. */
  predicate TriesStart(s: Snap, faults: Faults) {
    s.state.SessStarted? && CanPrepare(s, faults) && !Barred(s, faults)
  }

  /** What a connect that could not follow the session leaves of another interface: a start that was tried is rolled back. */
  predicate Unwound(s: Snap, faults: Faults, a: Aif, b: Aif) {
    if TriesStart(s, faults) then RolledBack(a, b) else b == a
  }

  /** And of the start count of a device. */
  ghost function StartsLeft(links: seq<Link>, devs: seq<Device>, s: Snap, faults: Faults, p: nat): int
    requires Mapped(links, s.aifs) && p < |devs|
  {
    if TriesStart(s, faults) then Max(0, devs[p].start - Count(links, s.aifs, Started, p)) else devs[p].start
  }

  /** The pool with interface `i` in state `st`. */
  function With(aifs: seq<Aif>, i: nat, st: AifState): seq<Aif>
    requires i < |aifs|
  {
    aifs[i := aifs[i].(state := st)]
  }

  /** The device and the graph leg of interface `i` can be opened on an open session. */
  predicate Attaches(links: seq<Link>, devs: seq<Device>, s: Snap, i: nat, faults: Faults)
    requires Mapped(links, s.aifs) && i < |s.aifs|
  {
    Connects(faults, i, IsOpen(devs, PcmOf(links, s.aifs[i].dev)), false, Total(s.aifs) == 0, s.graph)
  }

  /** Whether the session has a graph if interface `i` cannot be attached. */
  predicate Left(links: seq<Link>, devs: seq<Device>, s: Snap, i: nat, faults: Faults)
    requires Mapped(links, s.aifs) && i < |s.aifs|
  {
    GraphLeft(faults, i, IsOpen(devs, PcmOf(links, s.aifs[i].dev)), false, Total(s.aifs) == 0, s.graph)
  }

  /** Connecting interface `i` opens a device that the interface holds open already. */
  predicate OpensTwice(links: seq<Link>, devs: seq<Device>, s: Snap, i: nat, faults: Faults)
    requires Mapped(links, s.aifs) && i < |s.aifs|
  {
    !s.state.SessClosed? && s.aifs[i].state.AifOpened? && Attaches(links, devs, s, i, faults)
  }

  /** A connect of interface `i` that failed after attaching it could not give its open back. */
  predicate Leaks(links: seq<Link>, devs: seq<Device>, s: Snap, i: nat, faults: Faults, ret: Status)
    requires Mapped(links, s.aifs) && i < |s.aifs|
  {
    && !ret.Ok? && !s.state.SessClosed? && (In(s.aifs[i].state, Live) ==> s.aifs[i].state.AifOpened?)
    && Attaches(links, devs, s, i, faults) && GivesUp(faults, i, Total(s.aifs) + 1)
  }

  /** What connecting interface `i` makes of a session and of the start counts. */
  ghost predicate Connected(links: seq<Link>, devs: seq<Device>, s: Snap, i: nat, faults: Faults,
                            ret: Status, t: Snap, devs': seq<Device>)
    requires Mapped(links, s.aifs) && i < |s.aifs| && |devs| == |devs'| == |links|
  {
    var was := s.aifs[i].state;
    if In(was, Live) && !was.AifOpened? then ret == Already && t == s && devs' == devs
    else if s.state.SessClosed? then ret == Ok && t == s.(aifs := With(s.aifs, i, AifOpen)) && devs' == devs
    else if !Attaches(links, devs, s, i, faults) then !ret.Ok? && t == s.(graph := Left(links, devs, s, i, faults))
    else if ret.Ok? then t.graph && Followed(links, s.state, With(s.aifs, i, AifOpened), devs, t.state, t.aifs, devs')
    else
      && t.graph && t.state == s.state && |t.aifs| == |s.aifs| && t.aifs[i] == s.aifs[i].(state := AifClose)
      && (forall j | 0 <= j < |s.aifs| && j != i ::
            Unwound(s.(aifs := With(s.aifs, i, AifOpened)), faults, s.aifs[j], t.aifs[j]))
      && forall p | 0 <= p < |links| && p != PcmOf(links, s.aifs[i].dev) ::
           devs'[p].start == StartsLeft(links, devs, s.(aifs := With(s.aifs, i, AifOpened)), faults, p)
  }

  /** Connecting interface `i` succeeds, if every prepared interface has a prepared device. */
  predicate CanConnect(links: seq<Link>, devs: seq<Device>, s: Snap, i: nat, faults: Faults)
    requires Mapped(links, s.aifs) && i < |s.aifs|
  {
    && (In(s.aifs[i].state, Live) ==> s.aifs[i].state.AifOpened?)
    && (s.state.SessClosed?
        || (Attaches(links, devs, s, i, faults) && CanFollow(links, devs, s.(aifs := With(s.aifs, i, AifOpened)), faults)))
  }

  /** What connecting device `dev` makes of a session, its interface being added to the pool if need be. */
  ghost predicate ConnectOutcome(links: seq<Link>, devs: seq<Device>, s: Snap, dev: nat, faults: Faults,
                                 ret: Status, t: Snap, devs': seq<Device>)
    requires Mapped(links, s.aifs) && |devs| == |devs'| == |links|
  {
    if dev >= |links| then ret == NoMem && t == s && devs' == devs
    else Connected(links, devs, s.(aifs := Pooled(s.aifs, dev)), SlotOf(s.aifs, dev), faults, ret, t, devs')
  }

  predicate MayConnect(links: seq<Link>, devs: seq<Device>, s: Snap, dev: nat, faults: Faults)
    requires Mapped(links, s.aifs)
  {
    dev < |links| && CanConnect(links, devs, s.(aifs := Pooled(s.aifs, dev)), SlotOf(s.aifs, dev), faults)
  }

  predicate TwiceOpen(links: seq<Link>, devs: seq<Device>, s: Snap, dev: nat, faults: Faults)
    requires Mapped(links, s.aifs)
  {
    dev < |links| && OpensTwice(links, devs, s.(aifs := Pooled(s.aifs, dev)), SlotOf(s.aifs, dev), faults)
  }

  /** Disconnecting interface `i` gets as far as closing its device. */
  predicate Closes(s: Snap, i: nat, faults: Faults)
    requires i < |s.aifs|
  {
    && !s.aifs[i].state.AifClosed? && !s.aifs[i].state.AifClose?
    && !s.state.SessClosed? && !GivesUp(faults, i, Total(s.aifs))
  }

  /** What disconnecting interface `i` makes of a session. */
  predicate Disconnected(links: seq<Link>, devs: seq<Device>, s: Snap, i: nat, faults: Faults, ret: Status, t: Snap)
    requires Mapped(links, s.aifs) && i < |s.aifs|
  {
    var was := s.aifs[i].state; var p := PcmOf(links, s.aifs[i].dev);
    if was.AifClosed? || was.AifClose? then ret == Already && t == s
    else
      && ret == (if s.state.SessClosed? then Ok
                 else if !Closes(s, i, faults) then NoMem
                 else Answer(if p < |devs| then devs[p].open else 0, (PcmClose, i) in faults))
      && t == s.(aifs := With(s.aifs, i, if ret.Ok? then AifClosed else AifClose))
  }

  /** The same for device `dev`, its interface being added to the pool if need be. */
  predicate DisconnectOutcome(links: seq<Link>, devs: seq<Device>, s: Snap, dev: nat, faults: Faults, ret: Status, t: Snap)
    requires Mapped(links, s.aifs)
  {
    if dev >= |links| then ret == NoMem && t == s
    else Disconnected(links, devs, s.(aifs := Pooled(s.aifs, dev)), SlotOf(s.aifs, dev), faults, ret, t)
  }

  predicate ClosesDevice(links: seq<Link>, s: Snap, dev: nat, faults: Faults) {
    dev < |links| && Closes(s.(aifs := Pooled(s.aifs, dev)), SlotOf(s.aifs, dev), faults)
  }

  predicate LeaksOpen(links: seq<Link>, devs: seq<Device>, s: Snap, dev: nat, faults: Faults, ret: Status)
    requires Mapped(links, s.aifs)
  {
    dev < |links| && Leaks(links, devs, s.(aifs := Pooled(s.aifs, dev)), SlotOf(s.aifs, dev), faults, ret)
  }

  /** Whether a start succeeds depends only on which devices are prepared. */
  lemma SamePrepared(links: seq<Link>, devs: seq<Device>, devs': seq<Device>, s: Snap, faults: Faults)
    requires Mapped(links, s.aifs) && |devs| == |devs'| && forall p | 0 <= p < |devs| :: devs[p].prepare == devs'[p].prepare
    ensures CanFollow(links, devs, s, faults) <==> CanFollow(links, devs', s, faults)
  {
    assert forall p: nat :: IsPrepared(devs, p) <==> IsPrepared(devs', p);
  }

  class SessionObj {
    const table: DeviceTable
    var state: SessState
    var dir: Direction
    var aifs: seq<Aif>
    var graph: bool
    var ecRef: bool
    var loopback: bool

    /** Every interface maps to a device. */
    ghost predicate Shape()
      reads this`aifs, table
    {
      && table.Valid()
      && Mapped(table.links, aifs)
    }

    /** What every call keeps: a closed session holds no device and no graph. */
    ghost predicate Valid()
      reads this, table
    {
      Shape() && (state.SessClosed? ==> !graph && NoneIn(aifs, Live))
    }

    /** Devices this session's live interfaces map to. */
    ghost function Held(p: nat): nat
      reads this`aifs, table
      requires Shape()
    {
      Count(table.links, aifs, Live, p)
    }

    /** Opens of `p` that this session does not account for. */
    ghost function Surplus(p: nat): int
      reads this`aifs, table
      requires Shape() && p < |table.links|
    {
      table.devs[p].open - Held(p)
    }

    /** Starts of `p` that this session does not account for. */
    ghost function StartSurplus(p: nat): int
      reads this`aifs, table
      requires Shape() && p < |table.links|
    {
      table.devs[p].start - Count(table.links, aifs, Started, p)
    }

    ghost function Surpluses(): (r: seq<int>)
      reads this, table
      requires Shape()
      ensures |r| == |table.links| && forall p | 0 <= p < |r| :: r[p] == Surplus(p)
    {
      seq(|table.links|, p requires 0 <= p < |table.links| && Shape() reads this, table => Surplus(p))
    }

    ghost function StartSurpluses(): (r: seq<int>)
      reads this, table
      requires Shape()
      ensures |r| == |table.links| && forall p | 0 <= p < |r| :: r[p] == StartSurplus(p)
    {
      seq(|table.links|, p requires 0 <= p < |table.links| && Shape() reads this, table => StartSurplus(p))
    }

    /** The open counts cover this session's interfaces, and the device table is in step. */
    ghost predicate Sound()
      reads this`aifs, table
      requires Shape()
    {
      table.Inv() && forall p | 0 <= p < |table.links| :: Surplus(p) >= 0
    }

    /** Every interface that was prepared has a prepared device. */
    ghost predicate Ready()
      reads this`aifs, table
      requires Shape()
    {
      Backed(table.links, table.devs, aifs)
    }

    function Now(): Snap
      reads this
    {
      Snap(state, dir, aifs, graph, ecRef, loopback)
    }

    constructor (table: DeviceTable, dir: Direction)
      requires table.Valid()
      ensures Valid() && this.table == table && Now() == Snap(SessClosed, dir, [], false, false, false)
      ensures forall p: nat :: Held(p) == 0
    {
      this.table := table;
      this.dir := dir;
      state := SessClosed;
      aifs := [];
      graph, ecRef, loopback := false, false, false;
    }

    lemma LiveIsOpen(i: nat)
      requires Shape() && Sound() && i < |aifs| && In(aifs[i].state, Live)
      ensures table.devs[PcmOf(table.links, aifs[i].dev)].open > 0
    {
      var p := PcmOf(table.links, aifs[i].dev);
      CountPositive(table.links, aifs, Live, i);
      assert Surplus(p) >= 0;
    }

    /** A device that a live interface holds open keeps its preparation. */
    lemma StillReady(before: seq<Device>)
      requires Shape() && Sound() && Keeps(before, table.devs)
      requires Backed(table.links, before, aifs)
      ensures Ready()
    {
      forall i | 0 <= i < |aifs| && Prepped(aifs[i].state)
        ensures table.devs[PcmOf(table.links, aifs[i].dev)].prepare > 0
      {
        LiveIsOpen(i);
      }
    }

    /** Sets one interface's state. */
    method SetAif(i: nat, s: AifState)
      requires i < |aifs| && Mapped(table.links, aifs)
      modifies this`aifs
      ensures aifs == old(aifs)[i := old(aifs[i]).(state := s)]
      ensures Mapped(table.links, aifs)
      ensures forall phase, p: nat {:trigger Count(table.links, aifs, phase, p)} ::
                var here := PcmOf(table.links, aifs[i].dev) == p;
                Count(table.links, aifs, phase, p)
                == Count(table.links, old(aifs), phase, p)
                   - (if here && In(old(aifs[i].state), phase) then 1 else 0) + (if here && In(s, phase) then 1 else 0)
    {
      aifs := aifs[i := aifs[i].(state := s)];
      forall phase, p: nat
        ensures var here := PcmOf(table.links, aifs[i].dev) == p;
                Count(table.links, aifs, phase, p)
                == Count(table.links, old(aifs), phase, p)
                   - (if here && In(old(aifs[i].state), phase) then 1 else 0) + (if here && In(s, phase) then 1 else 0)
      {
        CountUpdate(table.links, old(aifs), phase, i, s, p);
      }
    }

    /** The graph half of session_connect_aif; a failure on a session being opened may leave a graph to clean up. */
    method AttachLeg(i: nat, openCount: nat, faults: Faults) returns (ret: Status)
      modifies this`graph
      ensures ret.Ok? <==>
                && (if openCount > 0 then old(graph) && (GraphAdd, i) !in faults
                    else if state.SessClosed? then (GraphOpen, i) !in faults && (RegisterCallback, i) !in faults
                    else old(graph) && (GraphChange, i) !in faults)
                && (state.SessClosed? ==> (SetSessionParams, i) !in faults)
                && (SetAifParams, i) !in faults && (SetDeviceParams, i) !in faults && (SetTagParams, i) !in faults
      ensures ret != Already && ret != Pipe
      ensures graph == if openCount > 0 then old(graph)
                       else if state.SessClosed? then ret.Ok? || (old(graph) && (GraphOpen, i) in faults)
                       else ret.Ok? || (old(graph) && (GraphChange, i) in faults)
    {
      ret := Ok;
      var cleanup := true;
      if openCount == 0 {
        if state.SessClosed? {
          if (GraphOpen, i) in faults {
            ret, cleanup := Foreign, false;
          } else {
            graph := true;
            if (RegisterCallback, i) in faults {
              ret := Foreign;
            }
          }
        } else if !graph {
          ret, cleanup := Invalid, false;
        } else if (GraphChange, i) in faults {
          ret, cleanup := Foreign, false;
        }
      } else if !graph {
        ret, cleanup := Invalid, false;
      } else if (GraphAdd, i) in faults {
        ret, cleanup := Foreign, false;
      }
      if ret.Ok? && ((state.SessClosed? && (SetSessionParams, i) in faults)
                     || (SetAifParams, i) in faults || (SetDeviceParams, i) in faults || (SetTagParams, i) in faults) {
        ret := Foreign;
      }
      if !ret.Ok? && cleanup && openCount == 0 {
        graph := false;
      }
    }

    /** session_connect_aif: opens the device, then the graph leg; every failure after the open closes the device again. */
    method ConnectAif(i: nat, openCount: nat, faults: Faults) returns (ret: Status)
      requires Shape() && i < |aifs|
      modifies this`graph, table
      ensures table.Valid() && |table.groups| == old(|table.groups|)
      ensures var p := PcmOf(table.links, aifs[i].dev);
              && (forall d | 0 <= d < |table.devs| && d != p :: table.devs[d] == old(table.devs[d]))
              && table.devs[p].open == old(table.devs[p].open) + (if ret.Ok? then 1 else 0)
              && (ret.Ok? ==> table.devs[p] == AfterOpen(old(table.devs[p])))
              && (!ret.Ok? && old(table.devs[p].open) > 0 ==> table.devs[p] == old(table.devs[p]))
      ensures graph == (ret.Ok? || GraphLeft(faults, i, old(table.devs[PcmOf(table.links, aifs[i].dev)].open) > 0,
                                             state.SessClosed?, openCount == 0, old(graph)))
      ensures ret != Already && ((ConnectMerge, i) in faults ==> ret == NoMem)
      ensures ret.Ok? <==>
                Connects(faults, i, old(table.devs[PcmOf(table.links, aifs[i].dev)].open) > 0, state.SessClosed?, openCount == 0, old(graph))
      ensures table.strayCloses == old(table.strayCloses)
      ensures old(table.Inv()) ==> table.Inv()
      ensures old(table.Inv()) ==> Grown(old(table.devs), table.devs)
    {
      if (ConnectMerge, i) in faults {
        return NoMem;
      }
      ret := table.Open(aifs[i].dev, (PcmOpen, i) in faults);
      if !ret.Ok? {
        return;
      }
      ret := AttachLeg(i, openCount, faults);
      if !ret.Ok? {
        var _ := table.Close(aifs[i].dev, (PcmClose, i) in faults);
      }
    }

    /** session_disconnect_aif: closes the device once, unless a metadata merge fails first. */
    method DisconnectAif(i: nat, openCount: nat, faults: Faults) returns (ret: Status)
      requires table.Valid() && i < |aifs| && aifs[i].dev < |table.links|
      modifies table
      ensures table.Valid() && |table.groups| == old(|table.groups|)
      ensures GivesUp(faults, i, openCount) ==>
                ret == NoMem && table.devs == old(table.devs) && table.groups == old(table.groups)
                && table.strayCloses == old(table.strayCloses)
      ensures !GivesUp(faults, i, openCount) ==>
                var p := PcmOf(table.links, aifs[i].dev); var was := old(table.devs[p].open);
                && (forall d | 0 <= d < |table.devs| && d != p :: table.devs[d] == old(table.devs[d]))
                && table.devs[p] == Released(old(table.devs[p]), state)
                && table.strayCloses == old(table.strayCloses) + (if was > 0 then 0 else 1)
                && ret == Answer(was, (PcmClose, i) in faults)
      ensures old(table.Inv()) ==> table.Inv()
    {
      if (DisconnectMerge, i) in faults {
        return NoMem;
      }
      if openCount == 1 && (DisconnectAifMerge, i) in faults {
        return NoMem;
      }
      // graph_stop or graph_remove: the outcome is logged and overwritten below
      if state.SessStarted? {
        var _ := table.Stop(aifs[i].dev, (PcmStop, i) in faults);
      }
      ret := table.Close(aifs[i].dev, (PcmClose, i) in faults);
    }

    /** aif_obj_get_count_with_state(AIF_OPENED, not exact). */
    method CountLive() returns (n: nat)
      ensures n == Total(aifs)
    {
      n := 0;
      for i := 0 to |aifs|
        invariant n == Total(aifs[..i])
      {
        assert aifs[..i + 1][..i] == aifs[..i];
        if In(aifs[i].state, Live) {
          n := n + 1;
        }
      }
      assert aifs[..|aifs|] == aifs;
    }

    // ------------------------------------------------------------ open and close

    /** One round of those loops. */
    method UnwindOne(i: nat, faults: Faults)
      requires Shape() && i < |aifs| && aifs[i].state.AifOpened?
      requires Surplus(PcmOf(table.links, aifs[i].dev)) >= 0
      modifies this`aifs, table
      ensures Shape() && aifs == old(aifs)[i := old(aifs[i]).(state := AifOpen)] && |table.groups| == old(|table.groups|)
      ensures forall p | 0 <= p < |table.links| ::
                Surplus(p) == old(Surplus(p)) + (if p == PcmOf(table.links, aifs[i].dev) && GivesUp(faults, i, 1) then 1 else 0)
      ensures table.strayCloses == old(table.strayCloses)
      ensures old(table.Inv()) ==> table.Inv()
      ensures Shrunk(old(table.devs), table.devs)
    {
      CountPositive(table.links, aifs, Live, i);
      var _ := DisconnectAif(i, 1, faults);
      SetAif(i, AifOpen);
    }

    /** The unwinding loops of open: every interface opened so far is disconnected, and the graph is closed. */
    method UnwindOpen(ghost before: seq<Aif>, faults: Faults) returns (ret: Status)
      requires Shape() && Promoted(before, aifs) && NoneIn(before, Live)
      requires forall p | 0 <= p < |table.links| :: Surplus(p) >= 0
      modifies this`aifs, this`graph, table
      ensures Shape() && aifs == before && !graph && |table.groups| == old(|table.groups|)
      ensures ret == if !old(graph) then Invalid else if (GraphClose, 0) in faults then Foreign else Ok
      ensures forall p | 0 <= p < |table.links| :: Surplus(p) >= old(Surplus(p))
      ensures MergesSucceed(faults, |before|) ==> forall p | 0 <= p < |table.links| :: Surplus(p) == old(Surplus(p))
      ensures table.strayCloses == old(table.strayCloses)
      ensures old(table.Inv()) ==> table.Inv()
      ensures Shrunk(old(table.devs), table.devs)
    {
      for i := 0 to |aifs|
        invariant Shape() && graph == old(graph) && |table.groups| == old(|table.groups|)
        invariant Promoted(before, aifs) && forall j | 0 <= j < i :: aifs[j] == before[j]
        invariant forall p | 0 <= p < |table.links| :: Surplus(p) >= old(Surplus(p))
        invariant MergesSucceed(faults, |before|) ==> forall p | 0 <= p < |table.links| :: Surplus(p) == old(Surplus(p))
        invariant table.strayCloses == old(table.strayCloses)
        invariant old(table.Inv()) ==> table.Inv()
        invariant Shrunk(old(table.devs), table.devs)
      {
        if aifs[i].state.AifOpened? {
          assert before[i].state.AifOpen? by {
            assert before[i] in before;
          }
          UnwindOne(i, faults);
        }
      }
      ret := if !graph then Invalid else if (GraphClose, 0) in faults then Foreign else Ok;
      graph := false;
    }

    /** Connects one waiting interface of a session that is being opened. */
    method JoinOne(i: nat, openCount: nat, faults: Faults) returns (ret: Status)
      requires Shape() && state.SessClosed? && i < |aifs| && aifs[i].state.AifOpen? && (graph <==> openCount > 0)
      modifies this`aifs, this`graph, table
      ensures Shape() && |table.groups| == old(|table.groups|) && ret != Already
      ensures graph <==> openCount > 0 || ret.Ok?
      ensures aifs == old(aifs)[i := if ret.Ok? then old(aifs[i]).(state := AifOpened) else old(aifs[i])]
      ensures ret.Ok? <==>
                Connects(faults, i, old(table.devs[PcmOf(table.links, aifs[i].dev)].open) > 0, true, openCount == 0, openCount > 0)
      ensures forall p | 0 <= p < |table.links| :: Surplus(p) == old(Surplus(p))
      ensures forall p | 0 <= p < |table.devs| ::
                table.devs[p].open > 0 <==> old(table.devs[p].open) > 0 || (ret.Ok? && p == PcmOf(table.links, aifs[i].dev))
      ensures table.strayCloses == old(table.strayCloses)
      ensures old(table.Inv()) ==> table.Inv()
      ensures old(table.Inv()) ==> Grown(old(table.devs), table.devs)
    {
      ret := ConnectAif(i, openCount, faults);
      if ret.Ok? {
        SetAif(i, AifOpened);
      }
    }

    /** session_open_with_first_device. */
    method OpenWithFirst(faults: Faults) returns (ret: Status, ghost k: nat)
      requires Valid() && state.SessClosed?
      modifies this`aifs, this`graph, table
      ensures Shape() && Promoted(old(aifs), aifs) && graph == ret.Ok? && ret != Already && |table.groups| == old(|table.groups|)
      ensures !ret.Ok? ==> aifs == old(aifs)
      ensures FirstOpen(old(aifs), k) || (ret == Pipe && forall i | 0 <= i < |aifs| :: !old(aifs[i].state).AifOpen?)
      ensures FirstOpen(old(aifs), k) ==>
                && (ret.Ok? <==> Connects(faults, k, IsOpen(old(table.devs), PcmOf(table.links, old(aifs[k]).dev)), true, true, false))
                && (ret.Ok? ==> aifs == old(aifs)[k := old(aifs[k]).(state := AifOpened)])
                && (ret.Ok? ==> forall p | 0 <= p < |table.devs| ::
                                  table.devs[p].open > 0 <==> old(table.devs[p].open) > 0 || p == PcmOf(table.links, old(aifs[k]).dev))
      ensures forall p | 0 <= p < |table.links| :: Surplus(p) == old(Surplus(p))
      ensures table.strayCloses == old(table.strayCloses)
      ensures old(table.Inv()) ==> table.Inv()
      ensures old(table.Inv()) ==> Grown(old(table.devs), table.devs)
    {
      var i := 0;
      while i < |aifs| && !aifs[i].state.AifOpen?
        invariant i <= |aifs| && forall j | 0 <= j < i :: !aifs[j].state.AifOpen?
      {
        i := i + 1;
      }
      k := i;
      if i == |aifs| {
        return Pipe, k;
      }
      ret := JoinOne(i, 0, faults);
    }

    /** session_connect_reminder_devices: all the other interfaces, or none; the unwind answers with graph_close's result. */
    method ConnectRemaining(ghost before: seq<Aif>, faults: Faults) returns (ret: Status)
      requires Shape() && state.SessClosed? && graph && Promoted(before, aifs) && NoneIn(before, Live)
      requires forall p | 0 <= p < |table.links| :: Surplus(p) >= 0
      modifies this`aifs, this`graph, table
      ensures Shape() && ret != Already && Promoted(before, aifs) && |table.groups| == old(|table.groups|)
      ensures graph ==> ret.Ok? && forall i | 0 <= i < |aifs| :: before[i].state.AifOpen? ==> aifs[i].state.AifOpened?
      ensures !graph ==> aifs == before && ret == if (GraphClose, 0) in faults then Foreign else Ok
      ensures graph <==> AllJoin(table.links, old(table.devs), old(aifs), faults, 0)
      ensures forall p | 0 <= p < |table.links| :: Surplus(p) >= old(Surplus(p))
      ensures MergesSucceed(faults, |before|) ==> forall p | 0 <= p < |table.links| :: Surplus(p) == old(Surplus(p))
      ensures table.strayCloses == old(table.strayCloses)
      ensures old(table.Inv()) ==> table.Inv()
      ensures old(table.Inv()) ==> Keeps(old(table.devs), table.devs)
    {
      var openCount := 1;
      for i := 0 to |aifs|
        invariant Shape() && graph && openCount >= 1 && Promoted(before, aifs) && |table.groups| == old(|table.groups|)
        invariant forall j | 0 <= j < i :: !aifs[j].state.AifOpen?
        invariant forall j | 0 <= j < i && old(aifs[j].state).AifOpen? :: Joins(table.links, old(table.devs), old(aifs), faults, j)
        invariant forall p | 0 <= p < |table.devs| ::
                    table.devs[p].open > 0 <==> old(table.devs[p].open) > 0 || Ahead(table.links, old(aifs), i, p)
        invariant |aifs| == |old(aifs)| && forall j | i <= j < |aifs| :: aifs[j] == old(aifs[j])
        invariant forall p | 0 <= p < |table.links| :: Surplus(p) == old(Surplus(p))
        invariant table.strayCloses == old(table.strayCloses)
        invariant old(table.Inv()) ==> table.Inv()
        invariant old(table.Inv()) ==> Grown(old(table.devs), table.devs)
      {
        if aifs[i].state.AifOpen? {
          ret := JoinOne(i, openCount, faults);
          if !ret.Ok? {
            ret := UnwindOpen(before, faults);
            return;
          }
          openCount := openCount + 1;
        }
      }
      ret := Ok;
    }

    /** The first interface, then the others; `k` is the first one, if there is one. */
    method ConnectWaiting(faults: Faults) returns (ret: Status, ghost k: nat)
      requires Valid() && state.SessClosed?
      modifies this`aifs, this`graph, table
      ensures Shape() && ret != Already && Promoted(old(aifs), aifs) && |table.groups| == old(|table.groups|)
      ensures !ret.Ok? ==> aifs == old(aifs) && !graph
      ensures graph ==> forall i | 0 <= i < |aifs| :: old(aifs[i].state).AifOpen? ==> aifs[i].state.AifOpened?
      ensures !graph ==> aifs == old(aifs)
      ensures forall j: nat | FirstOpen(old(aifs), j) :: j == k
      ensures if FirstOpen(old(aifs), k) then
                var all := AllJoin(table.links, old(table.devs), old(aifs), faults, k + 1);
                var first := Connects(faults, k, IsOpen(old(table.devs), PcmOf(table.links, old(aifs[k]).dev)), true, true, false);
                (graph <==> first && all) && (ret.Ok? <==> first && (all || (GraphClose, 0) !in faults))
              else ret == Pipe
      ensures forall p | 0 <= p < |table.links| :: Surplus(p) >= old(Surplus(p))
      ensures MergesSucceed(faults, |aifs|) ==> forall p | 0 <= p < |table.links| :: Surplus(p) == old(Surplus(p))
      ensures table.strayCloses == old(table.strayCloses)
      ensures old(table.Inv()) ==> table.Inv()
      ensures old(table.Inv()) ==> Keeps(old(table.devs), table.devs)
    {
      ghost var before := aifs;
      HoldsNothing();
      ret, k := OpenWithFirst(faults);
      if !ret.Ok? {
        return;
      }
      JoinAfterFirst(table.links, old(table.devs), before, faults, k, table.devs);
      ret := ConnectRemaining(before, faults);
    }

    /** The echo reference and the loopback of a session that is being opened; a failure forgets the one that failed. */
    method Couple(faults: Faults) returns (ret: Status)
      modifies this`ecRef, this`loopback
      ensures ret.Ok? <==>
                && (old(ecRef) ==> graph && (EchoRef, 0) !in faults)
                && (old(loopback) ==> graph && (Loopback, 0) !in faults)
      ensures ret != Already && ecRef == (old(ecRef) && graph && (EchoRef, 0) !in faults)
      ensures loopback == (old(loopback) && (old(ecRef) != ecRef || (graph && (Loopback, 0) !in faults)))
    {
      ret := Ok;
      if ecRef && (!graph || (EchoRef, 0) in faults) {
        ecRef := false;
        ret := if !graph then Invalid else Foreign;
      } else if loopback && (!graph || (Loopback, 0) in faults) {
        loopback := false;
        ret := if !graph then Invalid else Foreign;
      }
    }

    /** session_obj_open: all interfaces that were asked for, or none. */
    method Open(faults: Faults) returns (ret: Status)
      requires Valid()
      modifies this`state, this`aifs, this`graph, this`ecRef, this`loopback, table
      ensures Valid() && |table.groups| == old(|table.groups|)
      ensures ret == Already <==> !old(state).SessClosed?
      ensures ret == Already ==> Now() == old(Now()) && table.devs == old(table.devs)
      ensures !ret.Ok? ==> state == old(state) && aifs == old(aifs)
      ensures ret.Ok? ==> state == SessOpened && Promoted(old(aifs), aifs) && aifs == (if graph then Opened(old(aifs)) else old(aifs))
      // A success that kept no interface is exactly a success without a graph.
      ensures ret.Ok? && graph ==> forall i | 0 <= i < |aifs| :: old(aifs[i].state).AifOpen? ==> aifs[i].state.AifOpened?
      ensures ret.Ok? ==> ecRef == old(ecRef) && loopback == old(loopback)
      ensures ret.Ok? ==> (old(ecRef) ==> (EchoRef, 0) !in faults) && (old(loopback) ==> (Loopback, 0) !in faults)
      ensures ret.Ok? && !graph ==> aifs == old(aifs) && !ecRef && !loopback && (GraphClose, 0) !in faults
      // When it succeeds, and when the success has a graph, in terms of what the call starts from.
      ensures forall k: nat | old(state).SessClosed? && FirstOpen(old(aifs), k) ::
                var all := AllJoin(table.links, old(table.devs), old(aifs), faults, k + 1);
                && (ret.Ok? ==> (graph <==> all))
                && (ret.Ok? <==>
                      && Connects(faults, k, IsOpen(old(table.devs), PcmOf(table.links, old(aifs[k]).dev)), true, true, false)
                      && (if all then (old(ecRef) ==> (EchoRef, 0) !in faults) && (old(loopback) ==> (Loopback, 0) !in faults)
                          else !old(ecRef) && !old(loopback) && (GraphClose, 0) !in faults))
      ensures old(state).SessClosed? && (forall i | 0 <= i < |aifs| :: !old(aifs[i].state).AifOpen?) ==> ret == Pipe
      ensures forall p | 0 <= p < |table.links| :: Surplus(p) >= old(Surplus(p))
      ensures MergesSucceed(faults, |aifs|) ==> forall p | 0 <= p < |table.links| :: Surplus(p) == old(Surplus(p))
      ensures table.strayCloses == old(table.strayCloses)
      ensures old(table.Inv()) ==> table.Inv()
      ensures old(table.Inv()) ==> Keeps(old(table.devs), table.devs)
    {
      if !state.SessClosed? {
        return Already;
      }
      HoldsNothing();
      ghost var before, k := aifs, 0;
      ret, k := ConnectWaiting(faults);
      if !ret.Ok? {
        return;
      }
      ret := Couple(faults);
      if !ret.Ok? {
        var _ := UnwindOpen(before, faults);
        return;
      }
      state := SessOpened;
    }

    lemma HoldsNothing()
      requires Valid() && state.SessClosed?
      ensures forall p: nat :: Held(p) == 0
    {
      forall p: nat ensures Held(p) == 0 {
        CountNone(table.links, aifs, Live, p);
      }
    }

    /** Open counts are what `surplus` says beyond this session's interfaces, but never below zero. */
    ghost predicate OpenLevel(surplus: seq<int>)
      reads this`aifs, table
      requires Shape()
    {
      |surplus| == |table.links| && forall p | 0 <= p < |table.links| :: table.devs[p].open == Max(0, surplus[p] + Held(p))
    }

    method CloseOne(i: nat, faults: Faults, ghost surplus: seq<int>) returns (ret: Status)
      requires Shape() && i < |aifs| && In(aifs[i].state, Live) && OpenLevel(surplus)
      modifies this`aifs, table
      ensures Shape() && aifs == old(aifs)[i := old(aifs[i]).(state := AifClosed)] && |table.groups| == old(|table.groups|)
      ensures OpenLevel(surplus)
      ensures var p := PcmOf(table.links, aifs[i].dev);
              && ret == Answer(Max(0, surplus[p] + Held(p) + 1), (PcmClose, i) in faults)
              && (surplus[p] >= 0 ==> table.strayCloses == old(table.strayCloses))
      ensures old(table.Inv()) ==> table.Inv()
      ensures Shrunk(old(table.devs), table.devs)
    {
      CountPositive(table.links, aifs, Live, i);
      ret := table.Close(aifs[i].dev, (PcmClose, i) in faults);
      SetAif(i, AifClosed);
    }

    /** The closing loop; answers with the last device's result, if there was a device. */
    method CloseAll(faults: Faults, ghost surplus: seq<int>) returns (last: Option<Status>, ghost k: nat)
      requires Shape() && OpenLevel(surplus)
      modifies this`aifs, table
      ensures Shape() && |aifs| == |old(aifs)| && |table.groups| == old(|table.groups|)
      ensures last.None? ==> NoneIn(old(aifs), Live)
      ensures last.Some? ==>
                && LastIn(old(aifs), Live, k)
                && last == Some(Answer(Max(0, surplus[PcmOf(table.links, aifs[k].dev)] + 1), (PcmClose, k) in faults))
      ensures forall i | 0 <= i < |aifs| ::
                aifs[i] == if In(old(aifs[i].state), Live) then old(aifs[i]).(state := AifClosed) else old(aifs[i])
      ensures OpenLevel(surplus)
      ensures (forall p | 0 <= p < |table.links| :: surplus[p] >= 0) ==> table.strayCloses == old(table.strayCloses)
      ensures old(table.Inv()) ==> table.Inv()
      ensures Shrunk(old(table.devs), table.devs)
    {
      last, k := None, 0;
      for i := 0 to |aifs|
        invariant Shape() && |aifs| == |old(aifs)| && |table.groups| == old(|table.groups|)
        invariant last.None? ==> forall j | 0 <= j < i :: !In(old(aifs[j].state), Live)
        invariant last.Some? ==> LastAmong(old(aifs), Live, i, k) && var p := PcmOf(table.links, aifs[k].dev);
                    last == Some(Answer(Max(0, surplus[p] + Held(p) + 1), (PcmClose, k) in faults))
        invariant forall j | i <= j < |aifs| :: aifs[j] == old(aifs[j])
        invariant forall j | 0 <= j < i ::
                    aifs[j] == if In(old(aifs[j].state), Live) then old(aifs[j]).(state := AifClosed) else old(aifs[j])
        invariant OpenLevel(surplus)
        invariant (forall p | 0 <= p < |table.links| :: surplus[p] >= 0) ==> table.strayCloses == old(table.strayCloses)
        invariant old(table.Inv()) ==> table.Inv()
        invariant Shrunk(old(table.devs), table.devs)
      {
        if In(aifs[i].state, Live) {
          var ret := CloseOne(i, faults, surplus);
          k, last := i, Some(ret);
        }
      }
      if last.Some? {
        CountNone(table.links, aifs, Live, PcmOf(table.links, aifs[k].dev));
      }
    }

    /** The closing loop, against the surplus before it. */
    method CloseDevices(faults: Faults) returns (last: Option<Status>)
      requires Shape()
      modifies this`aifs, table
      ensures Shape() && |aifs| == |old(aifs)| && |table.groups| == old(|table.groups|) && NoneIn(aifs, Live)
      ensures (last.None? <==> NoneIn(old(aifs), Live)) && last != Some(Already)
      ensures forall k: nat | LastIn(old(aifs), Live, k) ::
                last == Some(if old(Surplus(PcmOf(table.links, aifs[k].dev))) == 0 && (PcmClose, k) in faults then Foreign else Ok)
      ensures aifs == Shut(old(aifs))
      ensures forall p | 0 <= p < |table.links| :: Surplus(p) == Max(0, old(Surplus(p)))
      ensures (forall p | 0 <= p < |table.links| :: old(Surplus(p)) >= 0) ==> table.strayCloses == old(table.strayCloses)
      ensures old(table.Inv()) ==> table.Inv()
      ensures Shrunk(old(table.devs), table.devs)
    {
      ghost var surplus, k := Surpluses(), 0;
      last, k := CloseAll(faults, surplus);
      assert forall j: nat | LastIn(old(aifs), Live, j) :: j == k && last.Some?;
      forall p | 0 <= p < |table.links| ensures Surplus(p) == Max(0, surplus[p]) {
        CountNone(table.links, aifs, Live, p);
      }
    }

    /** session_close: every live interface closes its device once, whatever the graph layer answers. */
    method Close(faults: Faults) returns (ret: Status)
      requires Valid()
      modifies this`state, this`aifs, this`graph, this`ecRef, this`loopback, table
      ensures Valid() && |table.groups| == old(|table.groups|)
      ensures state == SessClosed && !graph && (ret == Already <==> old(state).SessClosed?)
      ensures !old(state).SessClosed? && NoneIn(old(aifs), Live) ==>
                ret == if !old(graph) then Invalid else if (GraphClose, 0) in faults then Foreign else Ok
      ensures forall k: nat | !old(state).SessClosed? && LastIn(old(aifs), Live, k) ::
                ret == if old(Surplus(PcmOf(table.links, aifs[k].dev))) == 0 && (PcmClose, k) in faults then Foreign else Ok
      ensures old(state).SessClosed? ==> Now() == old(Now()) && table.devs == old(table.devs)
      ensures !old(state).SessClosed? ==> Now() == Snap(SessClosed, dir, Shut(old(aifs)), false, false, false)
      ensures |aifs| == |old(aifs)| && forall i | 0 <= i < |aifs| :: aifs[i].dev == old(aifs[i]).dev
      ensures forall p | 0 <= p < |table.links| :: Surplus(p) == Max(0, old(Surplus(p)))
      ensures (forall p | 0 <= p < |table.links| :: old(Surplus(p)) >= 0) ==> table.strayCloses == old(table.strayCloses)
      ensures old(table.Inv()) ==> table.Inv()
      ensures Shrunk(old(table.devs), table.devs)
    {
      if state.SessClosed? {
        HoldsNothing();
        return Already;
      }
      // graph_stop, if started, then graph_close: outcomes logged only
      ret := if !graph then Invalid else if (GraphClose, 0) in faults then Foreign else Ok;
      graph, ecRef, loopback := false, false, false;
      var last := CloseDevices(faults);
      ret := if last.Some? then last.value else ret;
      state := SessClosed;
    }

    // ------------------------------------------------------------ prepare, start, stop

    /** session_prepare: in this build only the graph is prepared. */
    method Prepare(faults: Faults) returns (ret: Status)
      requires Valid()
      modifies this`state
      ensures Valid()
      ensures Total(aifs) == 0 ==> ret == Invalid
      ensures state == if ret.Ok? && !old(state).SessStarted? then SessPrepared else old(state)
      ensures ret.Ok? && !old(state).SessStarted? ==> graph
      ensures ret.Ok? <==> CanPrepare(old(Now()), faults)
    {
      var n := CountLive();
      if n == 0 {
        return Invalid;
      }
      for i := 0 to |aifs|
        invariant forall k | 0 <= k < i :: (PrepareDeviceParams, k) !in faults
      {
        if (PrepareDeviceParams, i) in faults {
          return Foreign;
        }
      }
      ret := Ok;
      if !state.SessStarted? {
        if !graph {
          return Invalid;
        }
        if (GraphPrepare, 0) in faults {
          return Foreign;
        }
        state := SessPrepared;
      }
    }

    /** Moving an opened or stopped interface to AIF_PREPARED changes no count. */
    method MarkPrepared(i: nat)
      requires Shape() && i < |aifs| && (aifs[i].state.AifOpened? || aifs[i].state.AifStopped?)
      modifies this`aifs
      ensures Shape() && aifs == old(aifs)[i := old(aifs[i]).(state := AifPrepared)]
      ensures forall p | 0 <= p < |table.links| :: Surplus(p) == old(Surplus(p)) && StartSurplus(p) == old(StartSurplus(p))
    {
      SetAif(i, AifPrepared);
    }

    /** Prepares one interface's device, if its state asks for it. */
    method PrepareOne(i: nat, faults: Faults) returns (ret: Status)
      requires Shape() && i < |aifs|
      modifies this`aifs, table
      ensures Shape() && |table.groups| == old(|table.groups|) && table.strayCloses == old(table.strayCloses)
      ensures var a := old(aifs[i]);
              aifs == old(aifs)[i := if ret.Ok? && In(a.state, Startable) then a.(state := AifPrepared) else a]
      ensures forall p | 0 <= p < |table.links| :: Surplus(p) == old(Surplus(p))
      ensures forall p | 0 <= p < |table.links| :: StartSurplus(p) == old(StartSurplus(p))
      ensures old(Sound()) ==> table.Inv()
      ensures Grown(old(table.devs), table.devs)
      ensures var s := old(aifs[i].state); var p := PcmOf(table.links, aifs[i].dev);
              && (ret.Ok? <==> (s.AifOpened? || s.AifStopped?) && (PcmPrepare, i) in faults ==> old(table.devs[p].prepare) > 0)
              && (forall q | 0 <= q < |table.devs| ::
                    table.devs[q].prepare > 0 <==>
                      old(table.devs[q].prepare) > 0 || (ret.Ok? && q == p && (s.AifOpened? || s.AifStopped?)))
    {
      ret := Ok;
      if aifs[i].state.AifOpened? || aifs[i].state.AifStopped? {
        if old(Sound()) {
          LiveIsOpen(i);
        }
        ret := table.Prepare(aifs[i].dev, (PcmPrepare, i) in faults);
        if ret.Ok? {
          MarkPrepared(i);
        }
      }
    }

    /** Starts one interface's device, if its state asks for it. */
    method LaunchOne(i: nat) returns (ret: Status)
      requires Shape() && i < |aifs|
      modifies this`aifs, table
      ensures Shape() && |table.groups| == old(|table.groups|) && table.strayCloses == old(table.strayCloses)
      ensures var a := old(aifs[i]);
              aifs == old(aifs)[i := if ret.Ok? && In(a.state, Startable) then a.(state := AifStarted) else a]
      ensures forall p | 0 <= p < |table.links| :: Surplus(p) == old(Surplus(p))
      ensures forall p | 0 <= p < |table.links| :: StartSurplus(p) == old(StartSurplus(p))
      ensures ret.Ok? <==> In(old(aifs[i].state), Startable) ==>
                PreparedOrLater(old(table.devs[PcmOf(table.links, aifs[i].dev)].state))
      ensures old(table.Inv()) ==> table.Inv()
      ensures forall q | 0 <= q < |table.devs| :: table.devs[q].prepare == old(table.devs[q].prepare)
      ensures old(table.Inv()) && old(Ready()) ==> Ready()
    {
      ret := Ok;
      if In(aifs[i].state, Startable) {
        ret := table.Start(aifs[i].dev);
        if ret.Ok? {
          SetAif(i, AifStarted);
        }
      }
    }

    /** One round of a pass: prepare, then start. */
    method StartOne(i: nat, faults: Faults) returns (ret: Status)
      requires Shape() && i < |aifs|
      modifies this`aifs, table
      ensures Shape() && |table.groups| == old(|table.groups|) && table.strayCloses == old(table.strayCloses)
      ensures |aifs| == |old(aifs)| && Advanced(old(aifs[i]), aifs[i])
      ensures forall j | 0 <= j < |aifs| && j != i :: aifs[j] == old(aifs[j])
      ensures ret.Ok? && In(aifs[i].state, Live) ==> aifs[i].state.AifStarted?
      ensures forall p | 0 <= p < |table.links| :: Surplus(p) == old(Surplus(p))
      ensures forall p | 0 <= p < |table.links| :: StartSurplus(p) == old(StartSurplus(p))
      ensures old(Sound()) ==> Sound()
      ensures Grown(old(table.devs), table.devs)
      ensures old(Sound()) && old(Ready()) ==> Ready()
      ensures old(Sound()) && old(Ready()) ==>
                var waits := old(aifs[i].state).AifOpened?; var p := PcmOf(table.links, aifs[i].dev);
                && (ret.Ok? <==> waits && (PcmPrepare, i) in faults ==> IsPrepared(old(table.devs), p))
                && (ret.Ok? ==> forall q | 0 <= q < |table.devs| ::
                                  IsPrepared(table.devs, q) <==> IsPrepared(old(table.devs), q) || (waits && q == p))
    {
      ret := PrepareOne(i, faults);
      assert old(Ready()) ==> Ready();
      if ret.Ok? {
        ret := LaunchOne(i);
      }
    }

    /** What a pass of session_start that began with `before`, `devs` and these surpluses keeps at every interface. */
    ghost predicate InPass(before: seq<Aif>, devs: seq<Device>, surplus: seq<int>, starts: seq<int>, slimbus: bool)
      reads this, table
    {
      && Shape() && |surplus| == |starts| == |devs| == |table.links|
      && |aifs| == |before| && (forall j | 0 <= j < |aifs| :: Advanced(before[j], aifs[j]))
      && (forall j | 0 <= j < |aifs| :: table.links[aifs[j].dev].slimbus != slimbus ==> aifs[j] == before[j])
      && (forall p | 0 <= p < |table.links| :: Surplus(p) == surplus[p] && StartSurplus(p) == starts[p])
      && Grown(devs, table.devs)
    }

    /** One round of a pass: an interface of this pass is prepared and started. */
    method PassOne(i: nat, slimbus: bool, faults: Faults, ghost before: seq<Aif>, ghost devs: seq<Device>,
                   ghost surplus: seq<int>, ghost starts: seq<int>) returns (ret: Status)
      requires InPass(before, devs, surplus, starts, slimbus) && i < |aifs| && aifs[i] == before[i]
      modifies this`aifs, table
      ensures InPass(before, devs, surplus, starts, slimbus)
      ensures |table.groups| == old(|table.groups|) && table.strayCloses == old(table.strayCloses)
      ensures forall j | 0 <= j < |aifs| && j != i :: aifs[j] == old(aifs[j])
      ensures ret.Ok? && In(aifs[i].state, Live) && table.links[aifs[i].dev].slimbus == slimbus ==> aifs[i].state.AifStarted?
      ensures old(Sound()) ==> Sound()
      ensures old(Sound()) && old(Ready()) ==> Ready()
      ensures var waits := before[i].state.AifOpened? && table.links[before[i].dev].slimbus == slimbus;
              var p := PcmOf(table.links, before[i].dev);
              old(Sound()) && old(Ready()) ==>
                && (ret.Ok? <==> waits && (PcmPrepare, i) in faults ==> IsPrepared(old(table.devs), p))
                && (ret.Ok? ==> forall q | 0 <= q < |table.devs| ::
                                  IsPrepared(table.devs, q) <==> IsPrepared(old(table.devs), q) || (waits && q == p))
    {
      ret := Ok;
      if table.links[aifs[i].dev].slimbus == slimbus {
        ret := StartOne(i, faults);
      }
    }

    /** One of the two passes of session_start: over the SLIMBUS interfaces, or over the others. */
    method StartPass(slimbus: bool, faults: Faults) returns (ret: Status)
      requires Shape()
      modifies this`aifs, table
      ensures Shape() && |table.groups| == old(|table.groups|) && table.strayCloses == old(table.strayCloses)
      ensures |aifs| == |old(aifs)| && forall i | 0 <= i < |aifs| :: Advanced(old(aifs[i]), aifs[i])
      ensures ret.Ok? ==> forall i | 0 <= i < |aifs| ::
                            In(aifs[i].state, Live) && table.links[aifs[i].dev].slimbus == slimbus ==> aifs[i].state.AifStarted?
      ensures forall i | 0 <= i < |aifs| :: table.links[aifs[i].dev].slimbus != slimbus ==> aifs[i] == old(aifs[i])
      ensures forall p | 0 <= p < |table.links| :: Surplus(p) == old(Surplus(p))
      ensures forall p | 0 <= p < |table.links| :: StartSurplus(p) == old(StartSurplus(p))
      ensures old(Sound()) ==> Sound()
      ensures Grown(old(table.devs), table.devs)
      ensures old(Sound()) && old(Ready()) ==> Ready()
      ensures old(Sound()) && old(Ready()) ==>
                && (ret.Ok? <==> PassPrepares(table.links, old(table.devs), old(aifs), faults, slimbus, |aifs|))
                && (ret.Ok? ==> PreparedAfter(table.links, old(table.devs), old(aifs), slimbus, |aifs|, table.devs))
    {
      ghost var surplus, starts := Surpluses(), StartSurpluses();
      for i := 0 to |aifs|
        invariant |table.groups| == old(|table.groups|) && table.strayCloses == old(table.strayCloses)
        invariant InPass(old(aifs), old(table.devs), surplus, starts, slimbus)
        invariant forall j | 0 <= j < i ::
                    In(aifs[j].state, Live) && table.links[aifs[j].dev].slimbus == slimbus ==> aifs[j].state.AifStarted?
        invariant forall j | i <= j < |aifs| :: aifs[j] == old(aifs[j])
        invariant old(Sound()) ==> Sound()
        invariant old(Sound()) && old(Ready()) ==>
                    && Ready()
                    && PreparedAfter(table.links, old(table.devs), old(aifs), slimbus, i, table.devs)
                    && PassPrepares(table.links, old(table.devs), old(aifs), faults, slimbus, i)
      {
        ghost var mid := table.devs;
        ret := PassOne(i, slimbus, faults, old(aifs), old(table.devs), surplus, starts);
        if old(Sound()) && old(Ready()) {
          PassNext(table.links, old(table.devs), old(aifs), faults, slimbus, i, mid, table.devs, ret.Ok?);
        }
        if !ret.Ok? {
          return;
        }
      }
      ret := Ok;
    }

    /** The same for start counts and started interfaces. */
    ghost predicate StartLevel(surplus: seq<int>)
      reads this`aifs, table
      requires Shape()
    {
      |surplus| == |table.links|
      && forall p | 0 <= p < |table.links| ::
           table.devs[p].start == Max(0, surplus[p] + Count(table.links, aifs, Started, p))
    }

    method StopOne(i: nat, target: AifState, faults: Faults, ghost surplus: seq<int>) returns (ret: Status)
      requires Shape() && i < |aifs| && aifs[i].state.AifStarted? && In(target, Startable) && StartLevel(surplus)
      modifies this`aifs, table
      ensures Shape() && aifs == old(aifs)[i := old(aifs[i]).(state := target)]
      ensures |table.groups| == old(|table.groups|) && table.strayCloses == old(table.strayCloses)
      ensures forall p | 0 <= p < |table.links| :: table.devs[p].open == old(table.devs[p].open)
      ensures StartLevel(surplus)
      ensures var p := PcmOf(table.links, aifs[i].dev);
              ret == Answer(Max(0, surplus[p] + Count(table.links, aifs, Started, p) + 1), (PcmStop, i) in faults)
      ensures old(table.Inv()) ==> table.Inv()
      ensures Grown(old(table.devs), table.devs)
    {
      CountPositive(table.links, aifs, Started, i);
      ret := table.Stop(aifs[i].dev, (PcmStop, i) in faults);
      SetAif(i, target);
    }

    /** The stopping loops of session_start and session_stop; answers with the last device's result, if there was one. */
    method StopAll(target: AifState, faults: Faults) returns (last: Option<Status>)
      requires Shape() && In(target, Startable)
      modifies this`aifs, table
      ensures Shape() && |table.groups| == old(|table.groups|) && table.strayCloses == old(table.strayCloses)
      ensures |aifs| == |old(aifs)|
      ensures last.None? <==> NoneIn(old(aifs), Started)
      ensures forall k: nat | LastIn(old(aifs), Started, k) ::
                last == Some(if old(StartSurplus(PcmOf(table.links, aifs[k].dev))) == 0 && (PcmStop, k) in faults then Foreign else Ok)
      ensures forall i | 0 <= i < |aifs| ::
                aifs[i] == if old(aifs[i].state).AifStarted? then old(aifs[i]).(state := target) else old(aifs[i])
      ensures forall p | 0 <= p < |table.links| :: Surplus(p) == old(Surplus(p))
      ensures forall p | 0 <= p < |table.links| :: table.devs[p].start == Max(0, old(StartSurplus(p)))
      ensures old(table.Inv()) ==> table.Inv()
      ensures Grown(old(table.devs), table.devs)
      ensures old(Ready()) ==> Ready()
    {
      ghost var surplus := StartSurpluses();
      ghost var k;
      last, k := StopLoop(target, faults, surplus);
      forall p | 0 <= p < |table.links|
        ensures table.devs[p].start == Max(0, surplus[p]) && Surplus(p) == old(Surplus(p))
      {
        CountNone(table.links, aifs, Started, p);
        CountAgree(table.links, old(aifs), aifs, Live, Live, p);
      }
    }

    method StopLoop(target: AifState, faults: Faults, ghost surplus: seq<int>) returns (last: Option<Status>, ghost k: nat)
      requires Shape() && In(target, Startable) && StartLevel(surplus)
      modifies this`aifs, table
      ensures Shape() && |table.groups| == old(|table.groups|) && table.strayCloses == old(table.strayCloses)
      ensures |aifs| == |old(aifs)|
      ensures last.None? ==> NoneIn(old(aifs), Started)
      ensures last.Some? ==>
                && LastIn(old(aifs), Started, k)
                && last == Some(Answer(Max(0, surplus[PcmOf(table.links, aifs[k].dev)] + 1), (PcmStop, k) in faults))
      ensures forall i | 0 <= i < |aifs| ::
                aifs[i] == if old(aifs[i].state).AifStarted? then old(aifs[i]).(state := target) else old(aifs[i])
      ensures forall p | 0 <= p < |table.links| :: table.devs[p].open == old(table.devs[p].open)
      ensures StartLevel(surplus)
      ensures old(table.Inv()) ==> table.Inv()
      ensures Grown(old(table.devs), table.devs)
    {
      last, k := None, 0;
      for i := 0 to |aifs|
        invariant Shape() && |table.groups| == old(|table.groups|) && table.strayCloses == old(table.strayCloses)
        invariant |aifs| == |old(aifs)| && forall j | i <= j < |aifs| :: aifs[j] == old(aifs[j])
        invariant forall j | 0 <= j < i ::
                    aifs[j] == if old(aifs[j].state).AifStarted? then old(aifs[j]).(state := target) else old(aifs[j])
        invariant last.None? ==> forall j | 0 <= j < i :: !In(old(aifs[j].state), Started)
        invariant last.Some? ==> LastAmong(old(aifs), Started, i, k) && var p := PcmOf(table.links, aifs[k].dev);
                    last == Some(Answer(Max(0, surplus[p] + Count(table.links, aifs, Started, p) + 1), (PcmStop, k) in faults))
        invariant forall p | 0 <= p < |table.links| :: table.devs[p].open == old(table.devs[p].open)
        invariant StartLevel(surplus)
        invariant old(table.Inv()) ==> table.Inv()
        invariant Grown(old(table.devs), table.devs)
      {
        if aifs[i].state.AifStarted? {
          var ret := StopOne(i, target, faults, surplus);
          k, last := i, Some(ret);
        }
      }
      if last.Some? {
        CountNone(table.links, aifs, Started, PcmOf(table.links, aifs[k].dev));
      }
    }

    /** The SLIMBUS pass, the graph, then the other devices. */
    method StartDevices(faults: Faults) returns (ret: Status)
      requires Shape()
      modifies this`aifs, table
      ensures Shape() && |table.groups| == old(|table.groups|) && table.strayCloses == old(table.strayCloses)
      ensures |aifs| == |old(aifs)| && forall i | 0 <= i < |aifs| ::
                                         aifs[i].dev == old(aifs[i].dev) && (In(aifs[i].state, Live) <==> In(old(aifs[i].state), Live))
      ensures forall i | 0 <= i < |aifs| :: Advanced(old(aifs[i]), aifs[i])
      ensures ret.Ok? ==> graph && aifs == Launched(old(aifs))
      ensures old(Sound()) && old(Ready()) ==>
                (ret.Ok? <==>
                  && PassPrepares(table.links, old(table.devs), old(aifs), faults, true, |aifs|) && graph && (GraphStart, 0) !in faults
                  && LaterPrepares(table.links, old(table.devs), old(aifs), faults))
      ensures ret.Ok? ==> forall p | 0 <= p < |table.links| ::
                            table.devs[p].start == old(table.devs[p].start) + Count(table.links, old(aifs), Startable, p)
      ensures (GraphStart, 0) in faults ==> !ret.Ok?
      ensures forall p | 0 <= p < |table.links| :: Surplus(p) == old(Surplus(p))
      ensures forall p | 0 <= p < |table.links| :: StartSurplus(p) == old(StartSurplus(p))
      ensures old(Sound()) ==> Sound()
      ensures Grown(old(table.devs), table.devs)
      ensures old(Sound()) && old(Ready()) ==> Ready()
    {
      ret := StartPass(true, faults);
      if !ret.Ok? {
        return;
      }
      if !graph {
        return Invalid;
      }
      if (GraphStart, 0) in faults {
        return Foreign;
      }
      if old(Sound()) && old(Ready()) {
        SecondPass(table.links, old(table.devs), old(aifs), faults, table.devs, aifs);
      }
      ret := StartPass(false, faults);
      if ret.Ok? {
        forall p | 0 <= p < |table.links|
          ensures table.devs[p].start == old(table.devs[p].start) + Count(table.links, old(aifs), Startable, p)
        {
          CountSplit(table.links, old(aifs), p);
          CountAgree(table.links, old(aifs), aifs, Live, Started, p);
          assert StartSurplus(p) == old(StartSurplus(p));
        }
      }
    }

    /** The unwinding of a start that got from `before` to the present pool. */
    method Rollback(ghost before: seq<Aif>, faults: Faults)
      requires Shape() && |before| == |aifs| && forall i | 0 <= i < |aifs| :: Advanced(before[i], aifs[i])
      modifies this`aifs, table
      ensures Shape() && |table.groups| == old(|table.groups|) && table.strayCloses == old(table.strayCloses)
      ensures |aifs| == |before|
      ensures forall i | 0 <= i < |aifs| :: !aifs[i].state.AifStarted? && RolledBack(before[i], aifs[i])
      ensures forall p | 0 <= p < |table.links| :: Surplus(p) == old(Surplus(p))
      ensures forall p | 0 <= p < |table.links| :: table.devs[p].start == Max(0, old(StartSurplus(p)))
      ensures old(table.Inv()) ==> table.Inv()
      ensures Grown(old(table.devs), table.devs)
      ensures old(Ready()) ==> Ready()
    {
      var _ := StopAll(AifOpened, faults);
    }

    /** session_start: every live interface ends Started, or none does and the session's own starts are undone. */
    method Start(faults: Faults) returns (ret: Status)
      requires Valid()
      modifies this`state, this`aifs, table
      ensures Valid() && |table.groups| == old(|table.groups|) && table.strayCloses == old(table.strayCloses)
      ensures |aifs| == |old(aifs)|
      ensures Barred(old(Now()), faults) ==>
                ret == Invalid && state == old(state) && aifs == old(aifs) && table.devs == old(table.devs)
      ensures ret.Ok? ==>
                && state == SessStarted && graph && aifs == Launched(old(aifs))
                && (forall p | 0 <= p < |table.links| ::
                      table.devs[p].start == old(table.devs[p].start) + Count(table.links, old(aifs), Startable, p))
      ensures old(Sound()) && old(Ready()) ==>
                (ret.Ok? <==> CanStart(table.links, old(table.devs), old(Now()), faults))
      ensures (GraphStart, 0) in faults ==> !ret.Ok?
      ensures !ret.Ok? && !Barred(old(Now()), faults) ==>
                && state == old(state)
                && (forall i | 0 <= i < |aifs| :: !aifs[i].state.AifStarted? && RolledBack(old(aifs[i]), aifs[i]))
                && (forall p | 0 <= p < |table.links| :: table.devs[p].start == Max(0, old(StartSurplus(p))))
      ensures forall p | 0 <= p < |table.links| :: Surplus(p) == old(Surplus(p))
      ensures old(Sound()) ==> Sound()
      ensures Grown(old(table.devs), table.devs)
      ensures old(Sound()) && old(Ready()) ==> Ready()
    {
      var n := CountLive();
      if n == 0 {
        return Invalid;
      }
      if dir.Tx? && (loopback || ecRef) && (StartCheck, 0) in faults {
        return Invalid;
      }
      ret := StartDevices(faults);
      if ret.Ok? {
        state := SessStarted;
      } else {
        Rollback(old(aifs), faults);
      }
    }

    /** session_stop. */
    method Stop(faults: Faults) returns (ret: Status)
      requires Valid()
      modifies this`state, this`aifs, table
      ensures Valid() && |table.groups| == old(|table.groups|) && table.strayCloses == old(table.strayCloses)
      ensures !old(state).SessStarted? ==> ret == Invalid
      ensures !CanStop(old(Now()), faults) ==> !ret.Ok? && Now() == old(Now()) && table.devs == old(table.devs)
      ensures CanStop(old(Now()), faults) ==>
                && Now() == old(Now()).(state := SessStopped, aifs := Halted(old(aifs)))
                && (forall p | 0 <= p < |table.links| :: table.devs[p].start == Max(0, old(StartSurplus(p))))
                && (dir.Tx? || NoneIn(old(aifs), Started) ==> (ret.Ok? <==> graph && (GraphStop, 0) !in faults))
      ensures forall k: nat | CanStop(old(Now()), faults) && dir.Rx? && LastIn(old(aifs), Started, k) ::
                ret.Ok? <==> ((PcmStop, k) in faults ==> old(StartSurplus(PcmOf(table.links, aifs[k].dev))) != 0)
      ensures forall p | 0 <= p < |table.links| :: Surplus(p) == old(Surplus(p))
      ensures old(Sound()) ==> Sound()
      ensures Grown(old(table.devs), table.devs)
      ensures old(Sound()) && old(Ready()) ==> Ready()
    {
      if !state.SessStarted? {
        return Invalid;
      }
      var stop := if !graph then Invalid else if (GraphStop, 0) in faults then Foreign else Ok;
      if dir.Rx? && !stop.Ok? {
        return stop;
      }
      var last := StopAll(AifStopped, faults);
      ret := if dir.Tx? then stop else if last.Some? then last.value else Ok;
      state := SessStopped;
    }

    // ------------------------------------------------------------ connect and disconnect

    /** aif_obj_get: finds the interface on a device, or adds one in AIF_CLOSED. */
    method FindOrAdd(dev: nat) returns (i: nat)
      requires Valid() && dev < |table.links|
      modifies this`aifs
      ensures Valid() && i < |aifs| && aifs[i].dev == dev && aifs[i].state == old(StateOf(aifs, dev))
      ensures aifs == old(aifs) || (i == |old(aifs)| && aifs == old(aifs) + [Aif(dev, AifClosed)])
      ensures aifs == Pooled(old(aifs), dev)
      ensures i == old(SlotOf(aifs, dev)) && forall j | 0 <= j < i :: aifs[j].dev != dev
      ensures Total(aifs) == old(Total(aifs))
      ensures forall p | 0 <= p < |table.links| :: Held(p) == old(Held(p)) && Surplus(p) == old(Surplus(p))
      ensures old(Sound()) ==> Sound()
      ensures old(Ready()) ==> Ready()
    {
      i := 0;
      while i < |aifs| && aifs[i].dev != dev
        invariant i <= |aifs| && forall j | 0 <= j < i :: aifs[j].dev != dev
      {
        i := i + 1;
      }
      if i < |aifs| {
        StateOfAt(aifs, i);
      } else {
        StateOfAbsent(aifs, dev);
        AddAif(dev);
      }
    }

    /** A new interface is closed and holds nothing. */
    method AddAif(dev: nat)
      requires Valid() && dev < |table.links|
      modifies this`aifs
      ensures Valid() && aifs == old(aifs) + [Aif(dev, AifClosed)] && Total(aifs) == old(Total(aifs))
      ensures forall p | 0 <= p < |table.links| :: Held(p) == old(Held(p)) && Surplus(p) == old(Surplus(p))
      ensures old(Sound()) ==> Sound()
      ensures old(Ready()) ==> Ready()
    {
      AddClosed(table.links, aifs, dev);
      aifs := aifs + [Aif(dev, AifClosed)];
    }

    /** Undoes a connect whose prepare or start failed. */
    method UnwindConnect(i: nat, openCount: nat, faults: Faults)
      requires Shape() && i < |aifs| && In(aifs[i].state, Live)
      requires table.devs[PcmOf(table.links, aifs[i].dev)].open > 0
      modifies this`aifs, table
      ensures Shape() && aifs == old(aifs)[i := old(aifs[i]).(state := AifClose)] && |table.groups| == old(|table.groups|)
      ensures forall p | 0 <= p < |table.links| ::
                Surplus(p) == old(Surplus(p))
                              + (if p == PcmOf(table.links, aifs[i].dev) && GivesUp(faults, i, openCount) then 1 else 0)
      ensures forall p | 0 <= p < |table.links| && p != PcmOf(table.links, aifs[i].dev) :: table.devs[p] == old(table.devs[p])
      ensures table.strayCloses == old(table.strayCloses)
      ensures old(table.Inv()) ==> table.Inv()
      ensures Shrunk(old(table.devs), table.devs)
      ensures old(Sound()) ==> Sound()
      ensures old(Sound()) && old(Ready()) ==> Ready()
    {
      SetAif(i, AifClose);
      var _ := DisconnectAif(i, openCount, faults);
      assert forall p | 0 <= p < |table.links| :: Surplus(p) >= old(Surplus(p));
      if old(Sound()) && old(Ready()) {
        StillReady(old(table.devs));
      }
    }

    /** Brings a newly opened interface up to the session's state. */
    method CatchUp(faults: Faults) returns (ret: Status)
      requires Valid() && !state.SessClosed?
      modifies this`state, this`aifs, table
      ensures Valid() && !state.SessClosed?
      ensures |table.groups| == old(|table.groups|) && table.strayCloses == old(table.strayCloses)
      ensures |aifs| == |old(aifs)| && forall i | 0 <= i < |aifs| ::
                                         aifs[i].dev == old(aifs[i].dev) && (In(aifs[i].state, Live) <==> In(old(aifs[i].state), Live))
      ensures state == old(state) || (ret.Ok? && !old(state).SessStarted? && state == SessPrepared)
      ensures ret.Ok? ==> Followed(table.links, old(state), old(aifs), old(table.devs), state, aifs, table.devs)
      ensures !ret.Ok? ==> state == old(state) && forall i | 0 <= i < |aifs| ::
                             Unwound(old(Now()), faults, old(aifs[i]), aifs[i])
      ensures !ret.Ok? ==> forall p | 0 <= p < |table.links| ::
                             table.devs[p].start == StartsLeft(table.links, old(table.devs), old(Now()), faults, p)
      ensures !old(state).SessStarted? || (old(Sound()) && old(Ready())) ==>
                (ret.Ok? <==> CanFollow(table.links, old(table.devs), old(Now()), faults))
      ensures forall p | 0 <= p < |table.links| ::
                Surplus(p) == old(Surplus(p)) && table.devs[p].open == old(table.devs[p].open)
      ensures old(Sound()) ==> Sound()
      ensures Grown(old(table.devs), table.devs)
      ensures old(Sound()) && old(Ready()) ==> Ready()
    {
      ret := Ok;
      if state.SessOpened? {
        return;
      }
      var wasStarted := state.SessStarted?;
      ret := Prepare(faults);
      if ret.Ok? && wasStarted {
        ret := Start(faults);
        forall p | 0 <= p < |table.links| ensures Held(p) == old(Held(p)) {
          CountAgree(table.links, old(aifs), aifs, Live, Live, p);
        }
        assert forall p | 0 <= p < |table.links| :: table.devs[p].open == Surplus(p) + Held(p);
      }
    }

    /** The second half of a connect on an open session: interface `i` follows the session, or its connect is undone. */
    method CatchUpOrUnwind(i: nat, openCount: nat, faults: Faults) returns (ret: Status)
      requires Valid() && !state.SessClosed? && i < |aifs| && In(aifs[i].state, Live)
      requires table.devs[PcmOf(table.links, aifs[i].dev)].open > 0
      modifies this`state, this`aifs, table
      ensures Valid() && !state.SessClosed? && |aifs| == |old(aifs)|
      ensures |table.groups| == old(|table.groups|) && table.strayCloses == old(table.strayCloses)
      ensures forall j | 0 <= j < |aifs| :: aifs[j].dev == old(aifs[j].dev)
      ensures ret.Ok? ==> In(aifs[i].state, Live)
      ensures ret.Ok? ==> Followed(table.links, old(state), old(aifs), old(table.devs), state, aifs, table.devs)
      ensures !ret.Ok? ==> && state == old(state) && aifs[i].state == AifClose
                           && forall j | 0 <= j < |aifs| && j != i ::
                                Unwound(old(Now()), faults, old(aifs[j]), aifs[j])
      ensures !ret.Ok? ==> forall p | 0 <= p < |table.links| && p != PcmOf(table.links, aifs[i].dev) ::
                             table.devs[p].start == StartsLeft(table.links, old(table.devs), old(Now()), faults, p)
      ensures !old(state).SessStarted? || (old(Sound()) && old(Ready())) ==>
                (ret.Ok? <==> CanFollow(table.links, old(table.devs), old(Now()), faults))
      ensures forall p | 0 <= p < |table.links| ::
                Surplus(p) == old(Surplus(p))
                              + (if !ret.Ok? && p == PcmOf(table.links, aifs[i].dev) && GivesUp(faults, i, openCount) then 1 else 0)
      ensures old(Sound()) ==> Sound()
      ensures Keeps(old(table.devs), table.devs)
      ensures old(Sound()) && old(Ready()) ==> Ready()
    {
      ret := CatchUp(faults);
      if !ret.Ok? {
        ghost var started := table.devs;
        UnwindConnect(i, openCount, faults);
        GrewThenShrank(old(table.devs), started, table.devs);
      }
    }

    /** The first half of a connect on an open session: the device, its graph leg, AIF_OPENED. */
    method OpenAt(i: nat, openCount: nat, faults: Faults) returns (ret: Status)
      requires Valid() && !state.SessClosed? && i < |aifs| && (In(aifs[i].state, Live) ==> aifs[i].state.AifOpened?)
      requires openCount == Total(aifs)
      modifies this`aifs, this`graph, table
      ensures Valid() && |table.groups| == old(|table.groups|) && table.strayCloses == old(table.strayCloses)
      ensures ret.Ok? <==> Attaches(table.links, old(table.devs), old(Now()), i, faults)
      ensures aifs == if ret.Ok? then With(old(aifs), i, AifOpened) else old(aifs)
      ensures ret.Ok? ==> old(graph) && graph && table.devs[PcmOf(table.links, aifs[i].dev)].open > 0
      ensures ret.Ok? ==> forall p | 0 <= p < |table.devs| ::
                            table.devs[p].prepare == old(table.devs[p].prepare) && table.devs[p].start == old(table.devs[p].start)
      ensures !ret.Ok? ==> graph == Left(table.links, old(table.devs), old(Now()), i, faults)
      ensures forall p | 0 <= p < |table.links| ::
                Surplus(p) == old(Surplus(p))
                              + (if ret.Ok? && p == PcmOf(table.links, aifs[i].dev) && old(aifs[i].state).AifOpened? then 1 else 0)
      ensures old(Sound()) ==> Sound()
      ensures old(Sound()) ==> Grown(old(table.devs), table.devs)
      ensures old(Sound()) && old(Ready()) ==> Ready()
    {
      ret := ConnectAif(i, openCount, faults);
      if ret.Ok? {
        SetAif(i, AifOpened);
      }
    }

    /** The second half, seen from the session and the devices before the first half attached interface `i`. */
    method FollowUp(i: nat, openCount: nat, faults: Faults, ghost s: Snap, ghost devs: seq<Device>) returns (ret: Status)
      requires Valid() && !state.SessClosed? && i < |aifs| && In(aifs[i].state, Live) && openCount > 0
      requires table.devs[PcmOf(table.links, aifs[i].dev)].open > 0
      requires Mapped(table.links, s.aifs) && i < |s.aifs| && |devs| == |table.links| && graph
      requires (In(s.aifs[i].state, Live) ==> s.aifs[i].state.AifOpened?) && Attaches(table.links, devs, s, i, faults)
      requires Now() == s.(aifs := With(s.aifs, i, AifOpened))
      requires forall p | 0 <= p < |devs| :: table.devs[p].prepare == devs[p].prepare && table.devs[p].start == devs[p].start
      modifies this`state, this`aifs, table
      ensures Valid() && |table.groups| == old(|table.groups|) && |aifs| == |s.aifs| && aifs[i].dev == s.aifs[i].dev
      ensures Connected(table.links, devs, s, i, faults, ret, Now(), table.devs)
      ensures !s.state.SessStarted? || (old(Sound()) && old(Ready())) ==> (ret.Ok? <==> CanConnect(table.links, devs, s, i, faults))
      ensures forall p | 0 <= p < |table.links| && p != PcmOf(table.links, aifs[i].dev) :: Surplus(p) == old(Surplus(p))
      ensures var p := PcmOf(table.links, aifs[i].dev);
              Surplus(p) == old(Surplus(p)) + (if !ret.Ok? && GivesUp(faults, i, openCount) then 1 else 0)
      ensures table.strayCloses == old(table.strayCloses)
      ensures old(Sound()) ==> Sound()
      ensures Keeps(devs, table.devs)
      ensures old(Sound()) && old(Ready()) ==> Ready()
    {
      SamePrepared(table.links, devs, table.devs, Now(), faults);
      ret := CatchUpOrUnwind(i, openCount, faults);
    }

    /** Connects interface `i` of an open session. */
    method ConnectAt(i: nat, faults: Faults) returns (ret: Status)
      requires Valid() && !state.SessClosed? && i < |aifs| && (In(aifs[i].state, Live) ==> aifs[i].state.AifOpened?)
      modifies this`state, this`aifs, this`graph, table
      ensures Valid() && |table.groups| == old(|table.groups|) && |aifs| == |old(aifs)| && aifs[i].dev == old(aifs[i]).dev
      ensures Connected(table.links, old(table.devs), old(Now()), i, faults, ret, Now(), table.devs)
      ensures !old(state).SessStarted? || (old(Sound()) && old(Ready())) ==>
                (ret.Ok? <==> CanConnect(table.links, old(table.devs), old(Now()), i, faults))
      ensures forall p | 0 <= p < |table.links| && p != PcmOf(table.links, aifs[i].dev) :: Surplus(p) == old(Surplus(p))
      ensures var p := PcmOf(table.links, aifs[i].dev);
              var twice := if OpensTwice(table.links, old(table.devs), old(Now()), i, faults) then 1 else 0;
              var leak := if Leaks(table.links, old(table.devs), old(Now()), i, faults, ret) then 1 else 0;
              Surplus(p) == old(Surplus(p)) + twice + leak
      ensures table.strayCloses == old(table.strayCloses)
      ensures old(Sound()) ==> Sound()
      ensures old(Sound()) ==> Keeps(old(table.devs), table.devs)
      ensures old(Sound()) && old(Ready()) ==> Ready()
    {
      var n := CountLive();
      ret := OpenAt(i, n, faults);
      if !ret.Ok? {
        return;
      }
      ret := FollowUp(i, n + 1, faults, old(Now()), old(table.devs));
    }

    /** Connects interface `i`, whatever its state and the session's. */
    method ConnectFound(i: nat, faults: Faults) returns (ret: Status)
      requires Valid() && i < |aifs|
      modifies this`state, this`aifs, this`graph, table
      ensures Valid() && |table.groups| == old(|table.groups|) && |aifs| == |old(aifs)| && aifs[i].dev == old(aifs[i]).dev
      ensures Connected(table.links, old(table.devs), old(Now()), i, faults, ret, Now(), table.devs)
      ensures !old(state).SessStarted? || (old(Sound()) && old(Ready())) ==>
                (ret.Ok? <==> CanConnect(table.links, old(table.devs), old(Now()), i, faults))
      ensures forall p | 0 <= p < |table.links| && p != PcmOf(table.links, aifs[i].dev) :: Surplus(p) == old(Surplus(p))
      ensures var p := PcmOf(table.links, aifs[i].dev);
              var twice := if OpensTwice(table.links, old(table.devs), old(Now()), i, faults) then 1 else 0;
              var leak := if Leaks(table.links, old(table.devs), old(Now()), i, faults, ret) then 1 else 0;
              Surplus(p) == old(Surplus(p)) + twice + leak
      ensures table.strayCloses == old(table.strayCloses)
      ensures old(Sound()) ==> Sound()
      ensures old(Sound()) ==> Keeps(old(table.devs), table.devs)
      ensures old(Sound()) && old(Ready()) ==> Ready()
    {
      if In(aifs[i].state, Live) && !aifs[i].state.AifOpened? {
        ret := Already;
      } else if state.SessClosed? {
        ret := Ok;
        SetAif(i, AifOpen);
      } else {
        ret := ConnectAt(i, faults);
      }
    }

    /**
     session_obj_sess_aif_connect(true); `i` is where the interface sits in the pool.  Connecting an
     interface that already is AIF_OPENED on an open session opens its device a second time: short of
     a failed metadata merge, that is the only way to add an open nobody accounts for.
     */
    method Connect(dev: nat, faults: Faults) returns (ret: Status, ghost i: nat)
      requires Valid()
      modifies this`state, this`aifs, this`graph, table
      ensures Valid() && |table.groups| == old(|table.groups|) && i == old(SlotOf(aifs, dev))
      ensures ConnectOutcome(table.links, old(table.devs), old(Now()), dev, faults, ret, Now(), table.devs)
      ensures !old(state).SessStarted? || (old(Sound()) && old(Ready())) ==>
                (ret.Ok? <==> MayConnect(table.links, old(table.devs), old(Now()), dev, faults))
      ensures forall p | 0 <= p < |table.links| ::
                var here := dev < |table.links| && p == PcmOf(table.links, dev);
                var twice := if TwiceOpen(table.links, old(table.devs), old(Now()), dev, faults) then 1 else 0;
                var leak := if LeaksOpen(table.links, old(table.devs), old(Now()), dev, faults, ret) then 1 else 0;
                if !here then Surplus(p) == old(Surplus(p))
                else Surplus(p) == old(Surplus(p)) + twice + leak
      ensures table.strayCloses == old(table.strayCloses)
      ensures old(Sound()) ==> Sound()
      ensures old(Sound()) ==> Keeps(old(table.devs), table.devs)
      ensures old(Sound()) && old(Ready()) ==> Ready()
    {
      i := SlotOf(aifs, dev);
      if dev >= |table.links| {
        return NoMem, i;
      }
      var k := FindOrAdd(dev);
      ret := ConnectFound(k, faults);
    }

    /** Disconnects interface `i`, whatever its state and the session's. */
    method DisconnectFound(i: nat, faults: Faults) returns (ret: Status)
      requires Valid() && i < |aifs|
      modifies this`aifs, table
      ensures Valid() && |table.groups| == old(|table.groups|) && |aifs| == |old(aifs)| && aifs[i].dev == old(aifs[i]).dev
      ensures Disconnected(table.links, old(table.devs), old(Now()), i, faults, ret, Now())
      ensures forall p | 0 <= p < |table.links| && p != PcmOf(table.links, aifs[i].dev) ::
                Surplus(p) == old(Surplus(p)) && table.devs[p] == old(table.devs[p])
      ensures var p := PcmOf(table.links, aifs[i].dev);
              && table.devs[p] == (if Closes(old(Now()), i, faults) then Released(old(table.devs[p]), state) else old(table.devs[p]))
              && Surplus(p) == table.devs[p].open - old(table.devs[p].open) + old(Surplus(p))
                               + (if In(old(aifs[i].state), Live) then 1 else 0)
      ensures var p := PcmOf(table.links, aifs[i].dev);
              table.strayCloses == old(table.strayCloses) + (if Closes(old(Now()), i, faults) && old(table.devs[p].open) == 0 then 1 else 0)
      ensures old(table.Inv()) ==> table.Inv()
      ensures Shrunk(old(table.devs), table.devs)
    {
      if aifs[i].state.AifClosed? || aifs[i].state.AifClose? {
        return Already;
      }
      ret := Detach(i, faults);
    }

    /** Disconnects an interface that is not closed. */
    method Detach(i: nat, faults: Faults) returns (ret: Status)
      requires Valid() && i < |aifs| && !aifs[i].state.AifClosed? && !aifs[i].state.AifClose?
      modifies this`aifs, table
      ensures Valid() && |table.groups| == old(|table.groups|)
      ensures aifs == With(old(aifs), i, if ret.Ok? then AifClosed else AifClose)
      ensures var p := PcmOf(table.links, aifs[i].dev); var closes := Closes(old(Now()), i, faults);
              && ret == (if state.SessClosed? then Ok else if !closes then NoMem
                         else Answer(old(table.devs[p].open), (PcmClose, i) in faults))
              && table.devs == old(table.devs)[p := if closes then Released(old(table.devs[p]), state) else old(table.devs[p])]
              && table.strayCloses == old(table.strayCloses) + (if closes && old(table.devs[p].open) == 0 then 1 else 0)
      ensures forall p: nat ::
                Count(table.links, aifs, Live, p)
                == Count(table.links, old(aifs), Live, p)
                   - (if p == PcmOf(table.links, aifs[i].dev) && In(old(aifs[i].state), Live) then 1 else 0)
      ensures old(table.Inv()) ==> table.Inv()
    {
      ret := Ok;
      var n := CountLive();
      SetAif(i, AifClose);
      if !state.SessClosed? {
        ret := DisconnectAif(i, n, faults);
      }
      if ret.Ok? {
        SetAif(i, AifClosed);
      }
    }

    /**
     session_obj_sess_aif_connect(false).  On an open session the device is closed once whatever the
     interface's state was, so disconnecting one that is only AIF_OPEN takes away somebody else's open.
     */
    method Disconnect(dev: nat, faults: Faults) returns (ret: Status)
      requires Valid()
      modifies this`aifs, table
      ensures Valid() && |table.groups| == old(|table.groups|)
      ensures DisconnectOutcome(table.links, old(table.devs), old(Now()), dev, faults, ret, Now())
      ensures forall p | 0 <= p < |table.links| ::
                if dev >= |table.links| || p != PcmOf(table.links, dev) then
                  Surplus(p) == old(Surplus(p)) && table.devs[p] == old(table.devs[p])
                else
                  && table.devs[p] == (if ClosesDevice(table.links, old(Now()), dev, faults) then Released(old(table.devs[p]), state)
                                       else old(table.devs[p]))
                  && Surplus(p) == table.devs[p].open - old(table.devs[p].open) + old(Surplus(p))
                                   + (if In(old(StateOf(aifs, dev)), Live) then 1 else 0)
      ensures table.strayCloses == old(table.strayCloses)
                                   + (if ClosesDevice(table.links, old(Now()), dev, faults)
                                         && !IsOpen(old(table.devs), PcmOf(table.links, dev)) then 1 else 0)
      ensures old(table.Inv()) ==> table.Inv()
      ensures Shrunk(old(table.devs), table.devs)
    {
      if dev >= |table.links| {
        return NoMem;
      }
      var i := FindOrAdd(dev);
      ret := DisconnectFound(i, faults);
    }
  }

  /** Adding a closed interface to the pool holds nothing more. */
  lemma AddClosed(links: seq<Link>, aifs: seq<Aif>, dev: nat)
    requires dev < |links| && Mapped(links, aifs)
    ensures Total(aifs + [Aif(dev, AifClosed)]) == Total(aifs)
    ensures forall p: nat :: Count(links, aifs + [Aif(dev, AifClosed)], Live, p) == Count(links, aifs, Live, p)
  {
    assert (aifs + [Aif(dev, AifClosed)])[..|aifs|] == aifs;
  }

  lemma {:induction false} CountSplit(links: seq<Link>, aifs: seq<Aif>, p: nat)
    requires Mapped(links, aifs)
    ensures Count(links, aifs, Live, p) == Count(links, aifs, Startable, p) + Count(links, aifs, Started, p)
  {
    if aifs != [] {
      CountSplit(links, aifs[..|aifs| - 1], p);
    }
  }
}
