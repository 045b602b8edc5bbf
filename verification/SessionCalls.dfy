/**
 The API calls on one session (session_obj_* in service/src/session_obj.c), what each makes of the session,
 and which of them keep the open counts.
 */
module SessionCalls {
  import opened Common
  import opened Devices
  import opened Sessions

  datatype Call =
    | CallOpen
    | CallClose
    | CallPrepare
    | CallStart
    | CallStop
    | CallConnect(dev: nat)
    | CallDisconnect(dev: nat)
    | CallConfigure(dir: Direction, ecRef: bool, loopback: bool)

  // ---------------------------------------------------------------- what each call does

  /** Open: every waiting interface is opened and there is a graph, or neither; when it succeeds is decided by the inputs. */
  ghost predicate OpenOutcome(links: seq<Link>, devs: seq<Device>, s: Snap, faults: Faults, ret: Status, t: Snap)
    requires Mapped(links, s.aifs)
  {
    if !s.state.SessClosed? then ret == Already && t == s
    else
      && ret != Already
      && (ret.Ok? ==> t == s.(state := SessOpened, graph := t.graph,
                              aifs := if t.graph then Opened(s.aifs) else s.aifs))
      && (!ret.Ok? ==> t == s.(ecRef := t.ecRef, loopback := t.loopback))
      && ((forall i | 0 <= i < |s.aifs| :: !s.aifs[i].state.AifOpen?) ==> ret == Pipe)
      && forall k: nat | FirstOpen(s.aifs, k) ::
           var all := AllJoin(links, devs, s.aifs, faults, k + 1);
           && (ret.Ok? ==> (t.graph <==> all))
           && (ret.Ok? <==>
                 && Connects(faults, k, IsOpen(devs, PcmOf(links, s.aifs[k].dev)), true, true, false)
                 && (if all then (s.ecRef ==> (EchoRef, 0) !in faults) && (s.loopback ==> (Loopback, 0) !in faults)
                     else !s.ecRef && !s.loopback && (GraphClose, 0) !in faults))
  }

  predicate CloseOutcome(s: Snap, ret: Status, t: Snap) {
    if s.state.SessClosed? then ret == Already && t == s
    else ret != Already && t == Snap(SessClosed, s.dir, Shut(s.aifs), false, false, false)
  }

  predicate PrepareOutcome(s: Snap, faults: Faults, ret: Status, t: Snap) {
    && (ret.Ok? <==> CanPrepare(s, faults))
    && t == s.(state := if ret.Ok? && !s.state.SessStarted? then SessPrepared else s.state)
  }

  /** Every start of this session's interfaces is taken back. */
  ghost predicate Unstarted(links: seq<Link>, devs: seq<Device>, aifs: seq<Aif>, devs': seq<Device>)
    requires Mapped(links, aifs) && |devs| == |devs'| == |links|
  {
    forall p | 0 <= p < |links| :: devs'[p].start == Max(0, devs[p].start - Count(links, aifs, Started, p))
  }

  /** Start; `ready` says that every prepared interface has a prepared device, and the open counts cover the session. */
  ghost predicate StartOutcome(links: seq<Link>, devs: seq<Device>, s: Snap, faults: Faults, ready: bool,
                               ret: Status, t: Snap, devs': seq<Device>)
    requires Mapped(links, s.aifs) && |devs| == |devs'| == |links|
  {
    && (ready ==> (ret.Ok? <==> CanStart(links, devs, s, faults)))
    && (ret.Ok? ==>
          && t == s.(state := SessStarted, aifs := Launched(s.aifs))
          && forall p | 0 <= p < |links| :: devs'[p].start == devs[p].start + Count(links, s.aifs, Startable, p))
    && (!ret.Ok? ==> t == s.(aifs := t.aifs) && |t.aifs| == |s.aifs| && (Barred(s, faults) ==> t == s && devs' == devs))
    && (!ret.Ok? && !Barred(s, faults) ==>
          && (forall i | 0 <= i < |s.aifs| :: RolledBack(s.aifs[i], t.aifs[i]) && !t.aifs[i].state.AifStarted?)
          && Unstarted(links, devs, s.aifs, devs'))
  }

  ghost predicate StopOutcome(links: seq<Link>, devs: seq<Device>, s: Snap, faults: Faults, ret: Status, t: Snap, devs': seq<Device>)
    requires Mapped(links, s.aifs) && |devs| == |devs'| == |links|
  {
    if CanStop(s, faults) then
      && Unstarted(links, devs, s.aifs, devs')
      && t == s.(state := SessStopped, aifs := Halted(s.aifs))
      && (s.dir.Tx? || NoneIn(s.aifs, Started) ==> (ret.Ok? <==> s.graph && (GraphStop, 0) !in faults))
    else !ret.Ok? && t == s && devs' == devs
  }

  /** What a served call makes of its session. */
  ghost predicate Served(links: seq<Link>, devs: seq<Device>, s: Snap, call: Call, faults: Faults, ready: bool,
                         ret: Status, t: Snap, devs': seq<Device>)
  {
    && Mapped(links, s.aifs) && |devs| == |devs'| == |links|
    && match call
       case CallOpen => OpenOutcome(links, devs, s, faults, ret, t)
       case CallClose => CloseOutcome(s, ret, t)
       case CallPrepare => PrepareOutcome(s, faults, ret, t) && devs' == devs
       case CallStart => StartOutcome(links, devs, s, faults, ready, ret, t, devs')
       case CallStop => StopOutcome(links, devs, s, faults, ret, t, devs')
       case CallConnect(dev) =>
         && ConnectOutcome(links, devs, s, dev, faults, ret, t, devs')
         && (ready || !s.state.SessStarted? ==> (ret.Ok? <==> MayConnect(links, devs, s, dev, faults)))
       case CallDisconnect(dev) => DisconnectOutcome(links, devs, s, dev, faults, ret, t)
       case CallConfigure(dir, ecRef, loopback) =>
         ret == Ok && t == s.(dir := dir, ecRef := ecRef, loopback := loopback) && devs' == devs
  }

  // ---------------------------------------------------------------- which calls keep the open counts

  /** None of the metadata merges that a disconnect makes fails. */
  predicate DisconnectsMerge(faults: Faults) {
    forall f | f in faults :: !f.0.DisconnectMerge? && !f.0.DisconnectAifMerge?
  }

  /**
   What a client can check before a call: on an open session, connect does not target an interface
   in AIF_OPENED, nor disconnect one in AIF_OPEN.
   */
  predicate Disciplined(s: Snap, call: Call) {
    match call
    case CallConnect(dev) => !s.state.SessClosed? ==> !StateOf(s.aifs, dev).AifOpened?
    case CallDisconnect(dev) => !s.state.SessClosed? ==> !StateOf(s.aifs, dev).AifOpen?
    case _ => true
  }

  /**
   What breaks conservation: on an open session, connecting an interface in AIF_OPENED whose graph leg
   attaches once more, and disconnecting one in AIF_OPEN.
   */
  predicate Breaks(s: Snap, call: Call, faults: Faults) {
    !s.state.SessClosed?
    && match call
       case CallConnect(dev) =>
         StateOf(s.aifs, dev).AifOpened? && Connects(faults, SlotOf(s.aifs, dev), true, false, false, s.graph)
       case CallDisconnect(dev) => StateOf(s.aifs, dev).AifOpen?
       case _ => false
  }

  /**
   One API call on one session: it does what it asks for, and every surplus is kept, with no stray close,
   exactly if it does not break conservation.
   */
  method Serve(s: SessionObj, call: Call, faults: Faults) returns (ret: Status)
    requires s.Valid() && s.Sound() && DisconnectsMerge(faults)
    modifies s, s.table
    ensures s.Valid() && s.table.Inv() && |s.table.groups| == old(|s.table.groups|)
    ensures Served(s.table.links, old(s.table.devs), old(s.Now()), call, faults, old(s.Ready()), ret, s.Now(), s.table.devs)
    ensures (forall p | 0 <= p < |s.table.links| :: s.Surplus(p) == old(s.Surplus(p))) && s.table.strayCloses == old(s.table.strayCloses)
            <==> !Breaks(old(s.Now()), call, faults)
    ensures Keeps(old(s.table.devs), s.table.devs)
    ensures !Breaks(old(s.Now()), call, faults) && old(s.Ready()) ==> s.Ready()
    ensures Disciplined(old(s.Now()), call) ==> !Breaks(old(s.Now()), call, faults)
    ensures ret.Ok? ==> (Disciplined(old(s.Now()), call) <==> !Breaks(old(s.Now()), call, faults))
  {
    match call {
      case CallOpen => ret := ServeOpen(s, faults);
      case CallClose => ret := ServeClose(s, faults);
      case CallPrepare => ret := s.Prepare(faults);
      case CallStart => ret := ServeStart(s, faults);
      case CallStop => ret := ServeStop(s, faults);
      case CallConnect(dev) =>
        ret := ServeConnect(s, dev, faults);
      case CallDisconnect(dev) =>
        ret := ServeDisconnect(s, dev, faults);
      case CallConfigure(dir, ecRef, loopback) =>
        s.dir, s.ecRef, s.loopback := dir, ecRef, loopback;
        ret := Ok;
    }
  }

  method ServeOpen(s: SessionObj, faults: Faults) returns (ret: Status)
    requires s.Valid() && s.Sound() && DisconnectsMerge(faults)
    modifies s, s.table
    ensures s.Valid() && s.Sound() && |s.table.groups| == old(|s.table.groups|)
    ensures OpenOutcome(s.table.links, old(s.table.devs), old(s.Now()), faults, ret, s.Now())
    ensures forall p | 0 <= p < |s.table.links| :: s.Surplus(p) == old(s.Surplus(p))
    ensures s.table.strayCloses == old(s.table.strayCloses)
    ensures Keeps(old(s.table.devs), s.table.devs)
    ensures old(s.Ready()) ==> s.Ready()
  {
    assert forall i: nat, n: nat :: !GivesUp(faults, i, n);
    ret := s.Open(faults);
  }

  method ServeClose(s: SessionObj, faults: Faults) returns (ret: Status)
    requires s.Valid() && s.Sound()
    modifies s, s.table
    ensures s.Valid() && s.Sound() && |s.table.groups| == old(|s.table.groups|)
    ensures CloseOutcome(old(s.Now()), ret, s.Now())
    ensures forall p | 0 <= p < |s.table.links| :: s.Surplus(p) == old(s.Surplus(p))
    ensures s.table.strayCloses == old(s.table.strayCloses)
    ensures Keeps(old(s.table.devs), s.table.devs)
    ensures s.Ready()
  {
    ret := s.Close(faults);
  }

  method ServeStart(s: SessionObj, faults: Faults) returns (ret: Status)
    requires s.Valid() && s.Sound()
    modifies s, s.table
    ensures s.Valid() && s.Sound() && |s.table.groups| == old(|s.table.groups|)
    ensures StartOutcome(s.table.links, old(s.table.devs), old(s.Now()), faults, old(s.Ready()), ret, s.Now(), s.table.devs)
    ensures forall p | 0 <= p < |s.table.links| :: s.Surplus(p) == old(s.Surplus(p))
    ensures s.table.strayCloses == old(s.table.strayCloses)
    ensures Keeps(old(s.table.devs), s.table.devs)
    ensures old(s.Ready()) ==> s.Ready()
  {
    ret := s.Start(faults);
  }

  method ServeStop(s: SessionObj, faults: Faults) returns (ret: Status)
    requires s.Valid() && s.Sound()
    modifies s, s.table
    ensures s.Valid() && s.Sound() && |s.table.groups| == old(|s.table.groups|)
    ensures StopOutcome(s.table.links, old(s.table.devs), old(s.Now()), faults, ret, s.Now(), s.table.devs)
    ensures forall p | 0 <= p < |s.table.links| :: s.Surplus(p) == old(s.Surplus(p))
    ensures s.table.strayCloses == old(s.table.strayCloses)
    ensures Keeps(old(s.table.devs), s.table.devs)
    ensures old(s.Ready()) ==> s.Ready()
  {
    ret := s.Stop(faults);
  }

  method ServeConnect(s: SessionObj, dev: nat, faults: Faults) returns (ret: Status)
    requires s.Valid() && s.Sound() && DisconnectsMerge(faults)
    modifies s, s.table
    ensures s.Valid() && s.table.Inv() && |s.table.groups| == old(|s.table.groups|)
    ensures ConnectOutcome(s.table.links, old(s.table.devs), old(s.Now()), dev, faults, ret, s.Now(), s.table.devs)
    ensures old(s.Ready()) || !old(s.state).SessStarted? ==>
              (ret.Ok? <==> MayConnect(s.table.links, old(s.table.devs), old(s.Now()), dev, faults))
    ensures (forall p | 0 <= p < |s.table.links| :: s.Surplus(p) == old(s.Surplus(p))) && s.table.strayCloses == old(s.table.strayCloses)
            <==> !Breaks(old(s.Now()), CallConnect(dev), faults)
    ensures Keeps(old(s.table.devs), s.table.devs)
    ensures old(s.Ready()) ==> s.Ready()
    ensures ret.Ok? ==> (Disciplined(old(s.Now()), CallConnect(dev)) <==> !Breaks(old(s.Now()), CallConnect(dev), faults))
  {
    assert forall i: nat, n: nat :: !GivesUp(faults, i, n);
    TwiceBreaks(s, dev, faults);
    ghost var i;
    ret, i := s.Connect(dev, faults);
    if Breaks(old(s.Now()), CallConnect(dev), faults) {
      assert s.Surplus(PcmOf(s.table.links, dev)) == old(s.Surplus(PcmOf(s.table.links, dev))) + 1;
    }
    AnswerIsDiscipline(s.table.links, old(s.table.devs), old(s.Now()), dev, faults, ret, s.Now(), s.table.devs);
  }

  /** A connect that succeeds broke conservation exactly if it was not disciplined. */
  lemma AnswerIsDiscipline(links: seq<Link>, devs: seq<Device>, s: Snap, dev: nat, faults: Faults,
                           ret: Status, t: Snap, devs': seq<Device>)
    requires Mapped(links, s.aifs) && |devs| == |devs'| == |links|
    requires ConnectOutcome(links, devs, s, dev, faults, ret, t, devs')
    requires TwiceOpen(links, devs, s, dev, faults) <==> Breaks(s, CallConnect(dev), faults)
    ensures ret.Ok? ==> (Disciplined(s, CallConnect(dev)) <==> !Breaks(s, CallConnect(dev), faults))
  {
    PooledState(s.aifs, dev);
  }

  method ServeDisconnect(s: SessionObj, dev: nat, faults: Faults) returns (ret: Status)
    requires s.Valid() && s.Sound() && DisconnectsMerge(faults)
    modifies s`aifs, s.table
    ensures s.Valid() && s.table.Inv() && |s.table.groups| == old(|s.table.groups|)
    ensures DisconnectOutcome(s.table.links, old(s.table.devs), old(s.Now()), dev, faults, ret, s.Now())
    ensures (forall p | 0 <= p < |s.table.links| :: s.Surplus(p) == old(s.Surplus(p))) && s.table.strayCloses == old(s.table.strayCloses)
            <==> !Breaks(old(s.Now()), CallDisconnect(dev), faults)
    ensures Keeps(old(s.table.devs), s.table.devs)
    ensures !Breaks(old(s.Now()), CallDisconnect(dev), faults) && old(s.Ready()) ==> s.Ready()
  {
    ret := CountDisconnect(s, dev, faults);
    if old(s.Ready()) && !Breaks(old(s.Now()), CallDisconnect(dev), faults) {
      StillBacked(s.table.links, old(s.table.devs), old(s.Now()), dev, faults, ret, s.Now());
      s.StillReady(old(s.table.devs));
    }
  }

  method CountDisconnect(s: SessionObj, dev: nat, faults: Faults) returns (ret: Status)
    requires s.Valid() && s.Sound() && DisconnectsMerge(faults)
    modifies s`aifs, s.table
    ensures s.Valid() && s.table.Inv() && |s.table.groups| == old(|s.table.groups|)
    ensures DisconnectOutcome(s.table.links, old(s.table.devs), old(s.Now()), dev, faults, ret, s.Now())
    ensures (forall p | 0 <= p < |s.table.links| :: s.Surplus(p) == old(s.Surplus(p))) && s.table.strayCloses == old(s.table.strayCloses)
            <==> !Breaks(old(s.Now()), CallDisconnect(dev), faults)
    ensures Shrunk(old(s.table.devs), s.table.devs)
  {
    ClosesWhatItHolds(s, dev, faults);
    ret := s.Disconnect(dev, faults);
    if Breaks(old(s.Now()), CallDisconnect(dev), faults) {
      var p := PcmOf(s.table.links, dev);
      assert s.table.strayCloses == old(s.table.strayCloses) ==> s.Surplus(p) == old(s.Surplus(p)) - 1;
    }
  }

  /** A disconnect closes the device exactly if the interface holds it, unless the call breaks conservation. */
  lemma ClosesWhatItHolds(s: SessionObj, dev: nat, faults: Faults)
    requires s.Valid() && s.Sound() && DisconnectsMerge(faults)
    ensures var closes := ClosesDevice(s.table.links, s.Now(), dev, faults); var live := In(StateOf(s.aifs, dev), Live);
            if Breaks(s.Now(), CallDisconnect(dev), faults) then closes && !live
            else (closes <==> live) && (live ==> dev < |s.table.links| && IsOpen(s.table.devs, PcmOf(s.table.links, dev)))
  {
    TargetIsOpen(s, dev);
    PooledState(s.aifs, dev);
    assert forall i: nat, n: nat :: !GivesUp(faults, i, n);
  }

  /** A disconnect makes no interface look prepared. */
  lemma StillBacked(links: seq<Link>, devs: seq<Device>, s: Snap, dev: nat, faults: Faults, ret: Status, t: Snap)
    requires Mapped(links, s.aifs) && Mapped(links, t.aifs) && DisconnectOutcome(links, devs, s, dev, faults, ret, t)
    requires Backed(links, devs, s.aifs)
    ensures Backed(links, devs, t.aifs)
  {
  }

  /** The interface that a call on `dev` finds or adds. */
  lemma PooledState(aifs: seq<Aif>, dev: nat)
    ensures Pooled(aifs, dev)[SlotOf(aifs, dev)].state == StateOf(aifs, dev)
  {
    var i := SlotOf(aifs, dev);
    if i < |aifs| {
      StateOfAt(aifs, i);
    } else {
      StateOfAbsent(aifs, dev);
    }
  }

  /** On counts that cover the session, opening a device twice is what breaks conservation in a connect. */
  lemma TwiceBreaks(s: SessionObj, dev: nat, faults: Faults)
    requires s.Valid() && s.Sound()
    ensures TwiceOpen(s.table.links, s.table.devs, s.Now(), dev, faults) <==> Breaks(s.Now(), CallConnect(dev), faults)
  {
    TargetIsOpen(s, dev);
    PooledState(s.aifs, dev);
  }

  /** A live interface's device is open; an interface that ever left AIF_CLOSED has a device. */
  lemma TargetIsOpen(s: SessionObj, dev: nat)
    requires s.Valid() && s.Sound()
    ensures !StateOf(s.aifs, dev).AifClosed? ==> dev < |s.table.links| && SlotOf(s.aifs, dev) < |s.aifs|
    ensures In(StateOf(s.aifs, dev), Live) ==>
              s.table.devs[PcmOf(s.table.links, dev)].open > 0 && Total(s.aifs) > 0 && !s.state.SessClosed?
  {
    if !StateOf(s.aifs, dev).AifClosed? {
      var k := FindState(s.aifs, dev);
      if In(s.aifs[k].state, Live) {
        s.LiveIsOpen(k);
      }
    }
  }

  lemma {:induction false} FindState(aifs: seq<Aif>, dev: nat) returns (i: nat)
    requires !StateOf(aifs, dev).AifClosed?
    ensures i < |aifs| && aifs[i].dev == dev && aifs[i].state == StateOf(aifs, dev)
  {
    if aifs[0].dev == dev {
      i := 0;
    } else {
      i := FindState(aifs[1..], dev);
      i := i + 1;
    }
  }
}
