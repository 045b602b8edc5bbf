/**
 The compress-offload stream (plugins/tinyalsa/src/agm_compress_plugin.c).  Three threads meet on it: the
 client (write, drain), a controller (stop, close) and the event callback.  Each method is one section
 between two points where another thread can run; `Run` interleaves them in any order.
 */
module Compress {
  import opened Common
  import opened Arithmetic

  /** Where the client thread is: `Writing` is between submitting fragments to the DSP and accounting for them. */
  datatype Client = Ready | Writing(fragments: nat, size: nat) | DrainWait | DrainWoken | PartialWait | PartialWoken

  /**
   Where the controller is: `Dropped` is after the session stop, before the credit is reset; `Closing` is
   between the two lock sections of a close.
   */
  datatype Controller = Idle | EosReleased | EarlyReleased | Dropped | Closing | Closed

  datatype Step =
    | StepSubmit(length: nat, taken: nat, fails: bool)
    | StepAccount
    | StepWriteDone
    | StepDrain(fails: bool)
    | StepDrainResume
    | StepPartialDrain(fails: bool)
    | StepPartialResume
    | StepEosRendered
    | StepEarlyEos
    | StepStop(fails: bool)
    | StepClose

  /** Fragments that `size` bytes occupy, the last one possibly in part. */
  function Fragments(size: nat, fragment: nat): nat
    requires fragment > 0
  {
    size / fragment + if size % fragment != 0 then 1 else 0
  }

  /** The fragments hold the bytes, and one fewer would not. */
  lemma FragmentsTight(size: nat, fragment: nat)
    requires fragment > 0
    ensures size <= Times(Fragments(size, fragment), fragment) < size + fragment
  {
    TimesIs(size / fragment, fragment);
  }

  // ---------------------------------------------------------------- the protocol on values

  datatype Config = Config(fragment: nat, count: nat, total: nat)

  datatype State = State(avail: int, copied: nat, eos: bool, eosReceived: bool, earlyEos: bool,
                         client: Client, controller: Controller, inFlight: nat, polls: nat)

  function PendingIn(client: Client): nat {
    if client.Writing? then client.fragments else 0
  }

  /** The client once the end-of-stream condition, or the early one, is signalled. */
  function Woken(client: Client): Client {
    if client.DrainWait? then DrainWoken else client
  }

  function EarlyWoken(client: Client): Client {
    if client.PartialWait? then PartialWoken else client
  }

  /** The controller's next section of a stop. */
  function AfterStop(c: Config, s: State, fails: bool): State {
    match s.controller
    case Idle =>
      s.(eos := false, eosReceived := true, client := if s.eos then Woken(s.client) else s.client, controller := EosReleased)
    case EosReleased =>
      s.(earlyEos := false, client := if s.earlyEos then EarlyWoken(s.client) else s.client, controller := EarlyReleased)
    case EarlyReleased => if fails then s.(controller := Idle) else s.(inFlight := 0, controller := Dropped)
    case Dropped => s.(avail := c.total, copied := 0, controller := Idle)
    case _ => s
  }

  /** The controller's next section of a close. */
  function AfterClose(s: State): State {
    match s.controller
    case Idle => s.(eos := false, client := if s.eos then Woken(s.client) else s.client, controller := Closing)
    case Closing => s.(earlyEos := false, client := if s.earlyEos then EarlyWoken(s.client) else s.client, controller := Closed)
    case _ => s
  }

  /** One step of any thread; a step whose thread is elsewhere, or for which the DSP has no room, is not taken. */
  function After(c: Config, s: State, step: Step): State
    requires c.fragment > 0
  {
    if s.controller.Closed? then s
    else
      match step
      case StepSubmit(length, taken, fails) =>
        var n := Fragments(taken, c.fragment);
        if !s.client.Ready? || taken > length || s.inFlight + n > c.count then s
        else if length > c.total || fails then s.(eosReceived := false)
        else s.(eosReceived := false, inFlight := s.inFlight + n, client := Writing(n, taken))
      case StepAccount =>
        if !s.client.Writing? then s
        else
          var avail := s.avail - Times(s.client.fragments, c.fragment);
          s.(avail := avail, copied := if avail < 0 then s.copied else s.copied + s.client.size, client := Ready)
      case StepWriteDone =>
        if s.inFlight == 0 then s
        else
          var avail := s.avail + c.fragment;
          s.(avail := avail, inFlight := s.inFlight - 1, polls := if 0 <= avail <= c.total then s.polls + 1 else s.polls)
      case StepDrain(fails) =>
        if !s.client.Ready? then s
        else if s.eosReceived then s.(eosReceived := false)
        else s.(eos := true, client := if fails then Ready else DrainWait)
      case StepDrainResume => if s.client.DrainWoken? then s.(eosReceived := false, client := Ready) else s
      case StepPartialDrain(fails) =>
        if s.client.Ready? then s.(earlyEos := true, client := if fails then Ready else PartialWait) else s
      case StepPartialResume => if s.client.PartialWoken? then s.(client := Ready) else s
      case StepEosRendered => if s.eos then s.(eos := false, client := Woken(s.client)) else s.(eosReceived := true)
      case StepEarlyEos => if s.earlyEos then s.(earlyEos := false, client := EarlyWoken(s.client)) else s
      case StepStop(fails) => AfterStop(c, s, fails)
      case StepClose => AfterClose(s)
  }

  function AfterAll(c: Config, s: State, steps: seq<Step>): State
    requires c.fragment > 0
  {
    if steps == [] then s else After(c, AfterAll(c, s, steps[..|steps| - 1]), steps[|steps| - 1])
  }

  /** The last credit reset found in flight exactly what was still unaccounted. */
  predicate Settled(c: Config, s: State, steps: seq<Step>)
    requires c.fragment > 0
  {
    if steps == [] then true
    else
      var n := |steps| - 1; var before := AfterAll(c, s, steps[..n]);
      if steps[n].StepStop? && before.controller.Dropped? then before.inFlight == PendingIn(before.client)
      else Settled(c, s, steps[..n])
  }

  /** No write was ever half done between the drop and the reset of a stop. */
  predicate Quiet(c: Config, s: State, steps: seq<Step>)
    requires c.fragment > 0
  {
    if steps == [] then true
    else
      var now := AfterAll(c, s, steps);
      Quiet(c, s, steps[..|steps| - 1]) && !(now.controller.Dropped? && now.client.Writing?)
  }

  /** A blocked drain can be woken, the two end-of-stream flags never disagree, and the DSP holds no more than it has room for. */
  predicate Sane(c: Config, s: State) {
    && c.fragment > 0 && c.total == Times(c.count, c.fragment) && s.inFlight <= c.count
    && (s.client.DrainWait? ==> s.eos) && (s.client.PartialWait? ==> s.earlyEos) && !(s.eos && s.eosReceived)
  }

  /** How many bytes of credit there are beyond what the DSP has room for. */
  function DriftOf(c: Config, s: State): int {
    s.avail + Times(s.inFlight, c.fragment) - c.total - Times(PendingIn(s.client), c.fragment)
  }

  /** Only the drop and the reset of a stop make credit drift; the reset is right exactly if nothing was accounted too soon. */
  lemma StepDrift(c: Config, s: State, step: Step)
    requires Sane(c, s)
    ensures var t := After(c, s, step);
            && (s.controller.Dropped? && step.StepStop? ==> (DriftOf(c, t) == 0 <==> s.inFlight == PendingIn(s.client)))
            && (!(step.StepStop? && (s.controller.Dropped? || t.controller.Dropped?)) ==> DriftOf(c, t) == DriftOf(c, s))
            && (t.controller.Dropped? && !s.controller.Dropped? ==> t.inFlight == 0)
            && (t.controller.Dropped? && s.controller.Dropped? && PendingIn(t.client) == 0 == s.inFlight ==> t.inFlight == 0)
  {
    match step
    case StepStop(_) =>
      TimesOrdered(PendingIn(s.client), s.inFlight, c.fragment);
      TimesOrdered(s.inFlight, PendingIn(s.client), c.fragment);
    case StepSubmit(_, _, _) => SubmitDrift(c, s, step);
    case _ =>
  }

  lemma SubmitDrift(c: Config, s: State, step: Step)
    requires Sane(c, s) && step.StepSubmit?
    ensures var t := After(c, s, step);
            && t.controller == s.controller && DriftOf(c, t) == DriftOf(c, s)
            && (PendingIn(t.client) == 0 ==> t.inFlight == s.inFlight)
  {
    TimesAdds(s.inFlight, Fragments(step.taken, c.fragment), c.fragment);
  }

  /** Every step keeps a blocked drain wakeable, the flags apart, and the DSP within its room. */
  lemma StepSane(c: Config, s: State, step: Step)
    requires Sane(c, s)
    ensures Sane(c, After(c, s, step))
  {
  }

  /**
   Credit over whole runs: it is conserved exactly if the last reset found in flight what was still
   unaccounted, which it does if no write is half done between a drop and its reset.
   */
  lemma {:induction false} CreditLaw(c: Config, s: State, steps: seq<Step>)
    requires Sane(c, s) && DriftOf(c, s) == 0 && !s.controller.Dropped?
    ensures var t := AfterAll(c, s, steps);
            && Sane(c, t)
            && (!t.controller.Dropped? ==> (DriftOf(c, t) == 0 <==> Settled(c, s, steps)))
            && (Quiet(c, s, steps) ==> Settled(c, s, steps) && (t.controller.Dropped? ==> t.inFlight == 0 == PendingIn(t.client)))
  {
    if steps != [] {
      var n := |steps| - 1;
      CreditLaw(c, s, steps[..n]);
      StepDrift(c, AfterAll(c, s, steps[..n]), steps[n]);
      StepSane(c, AfterAll(c, s, steps[..n]), steps[n]);
    }
  }

  class Stream {
    const fragment: nat
    const count: nat
    const total: nat
    var bytesAvail: int
    var bytesCopied: nat
    var eos: bool
    var eosReceived: bool
    var earlyEos: bool
    var client: Client
    var controller: Controller
    /** Fragments the DSP holds. */
    var inFlight: nat
    /** How often the poll condition was signalled by a WRITE_DONE. */
    var polls: nat

    ghost predicate Valid()
      reads this
    {
      fragment > 0 && total == Times(count, fragment)
    }

    /** Fragments submitted but not accounted for. */
    function Pending(): nat
      reads this
    {
      PendingIn(client)
    }

    function Now(): State
      reads this
    {
      State(bytesAvail, bytesCopied, eos, eosReceived, earlyEos, client, controller, inFlight, polls)
    }

    function Setup(): Config {
      Config(fragment, count, total)
    }

    /** How many bytes of credit the stream has beyond what the DSP has room for. */
    ghost function Drift(): int
      reads this
    {
      bytesAvail + Times(inFlight, fragment) - total - Times(Pending(), fragment)
    }

    /** Every byte of credit is available, in flight, or about to be taken by the write in progress. */
    ghost predicate Credit()
      reads this
    {
      bytesAvail + Times(inFlight, fragment) == total + Times(Pending(), fragment)
    }

    /** A blocked drain can be woken, and the two end-of-stream flags never disagree. */
    ghost predicate Wakeable()
      reads this
    {
      && (client.DrainWait? ==> eos)
      && (client.PartialWait? ==> earlyEos)
      && !(eos && eosReceived)
    }

    ghost predicate Inv()
      reads this
    {
      Valid() && Wakeable() && inFlight <= count
    }

    /** agm_compress_set_params: full credit. */
    constructor (fragment: nat, count: nat)
      requires fragment > 0
      ensures Inv() && Credit() && this.fragment == fragment && this.count == count && bytesAvail == total
      ensures client == Ready && controller == Idle && bytesCopied == 0 && inFlight == 0 && polls == 0
    {
      this.fragment, this.count, this.total := fragment, count, count * fragment;
      bytesAvail, bytesCopied := count * fragment, 0;
      eos, eosReceived, earlyEos := false, false, false;
      client, controller, inFlight, polls := Ready, Idle, 0, 0;
      new;
      TimesIs(count, fragment);
    }

    /** While credit is conserved and no write is half done, it is the free fragments. */
    lemma CreditIsFreeFragments()
      requires Inv() && Credit() && !client.Writing?
      ensures bytesAvail == Times(count - inFlight, fragment)
      ensures 0 <= bytesAvail <= total && bytesAvail % fragment == 0
    {
      TimesAdds(count - inFlight, inFlight, fragment);
      TimesIs(count - inFlight, fragment);
      DivModOf(count - inFlight, fragment, 0);
    }

    // ------------------------------------------------------------ client: write

    /** agm_compress_write up to the session write, which takes `taken` of the `length` bytes. */
    method Submit(length: nat, taken: nat, fails: bool) returns (ret: Status)
      requires Inv() && client.Ready? && !controller.Closed? && taken <= length
      requires inFlight + Fragments(taken, fragment) <= count
      modifies this`client, this`eosReceived, this`inFlight
      ensures Inv() && !eosReceived && Drift() == old(Drift())
      ensures ret == if length > total then Invalid else if fails then Foreign else Ok
      ensures client == if ret.Ok? then Writing(Fragments(taken, fragment), taken) else Ready
      ensures inFlight == old(inFlight) + Pending()
    {
      eosReceived := false;
      if length > total {
        return Invalid;
      }
      if fails {
        return Foreign;
      }
      var n := Fragments(taken, fragment);
      TimesAdds(inFlight, n, fragment);
      inFlight := inFlight + n;
      client := Writing(n, taken);
      ret := Ok;
    }

    /**
     The accounting half of agm_compress_write: as many bytes as whole fragments.  It runs short only where
     credit was lost.
     */
    method Account() returns (ret: int)
      requires Inv() && client.Writing?
      modifies this`client, this`bytesAvail, this`bytesCopied
      ensures Inv() && client == Ready && Drift() == old(Drift())
      ensures bytesAvail == old(bytesAvail) - Times(old(Pending()), fragment)
      ensures ret == if bytesAvail < 0 then -1 else old(client.size)
      ensures bytesCopied == old(bytesCopied) + if bytesAvail < 0 then 0 else old(client.size)
      ensures Drift() >= 0 ==> bytesAvail >= 0
    {
      TimesIs(client.fragments, fragment);
      TimesOrdered(count, inFlight, fragment);
      bytesAvail := bytesAvail - client.fragments * fragment;
      if bytesAvail < 0 {
        ret := -1;
      } else {
        bytesCopied := bytesCopied + client.size;
        ret := client.size;
      }
      client := Ready;
    }

    // ------------------------------------------------------------ callback

    /**
     AGM_EVENT_WRITE_DONE.  While credit is conserved, the event is taken for an error, and the poller is
     not woken, exactly if it overtakes the accounting of the write it belongs to.
     */
    method WriteDone()
      requires Inv() && inFlight > 0
      modifies this`bytesAvail, this`inFlight, this`polls
      ensures Inv() && Drift() == old(Drift())
      ensures inFlight == old(inFlight) - 1 && bytesAvail == old(bytesAvail) + fragment
      ensures polls == old(polls) + (if 0 <= bytesAvail <= total then 1 else 0)
      ensures Credit() ==> (polls == old(polls) <==> Pending() > inFlight)
    {
      TimesOrdered(Pending(), inFlight - 1, fragment);
      TimesOrdered(count, inFlight - 1, fragment);
      inFlight := inFlight - 1;
      bytesAvail := bytesAvail + fragment;
      // the comparison is unsigned: a negative credit would be larger than the total
      if bytesAvail < 0 || bytesAvail > total {
        return;
      }
      polls := polls + 1;
    }

    /** AGM_EVENT_EOS_RENDERED wakes a blocked drain, or is remembered for the next one. */
    method EosRendered()
      requires Inv()
      modifies this`eos, this`eosReceived, this`client
      ensures Inv() && !eos && eosReceived == (old(eosReceived) || !old(eos))
      ensures client == if old(client).DrainWait? then DrainWoken else old(client)
    {
      if eos {
        Signal();
        eos := false;
      } else {
        eosReceived := true;
      }
    }

    /** pthread_cond_signal on the end-of-stream condition. */
    method Signal()
      modifies this`client
      ensures client == if old(client).DrainWait? then DrainWoken else old(client)
    {
      if client.DrainWait? {
        client := DrainWoken;
      }
    }

    method SignalEarly()
      modifies this`client
      ensures client == if old(client).PartialWait? then PartialWoken else old(client)
    {
      if client.PartialWait? {
        client := PartialWoken;
      }
    }

    /** AGM_EVENT_EARLY_EOS wakes a blocked partial drain. */
    method EarlyEos()
      requires Inv()
      modifies this`earlyEos, this`client
      ensures Inv() && !earlyEos
      ensures client == if old(client).PartialWait? then PartialWoken else old(client)
    {
      if earlyEos {
        earlyEos := false;
        SignalEarly();
      }
    }

    // ------------------------------------------------------------ client: drain

    /** agm_compress_drain up to the wait; a failed EOS command leaves its flag set. */
    method Drain(fails: bool) returns (ret: Status)
      requires Inv() && client.Ready?
      modifies this`eos, this`eosReceived, this`client
      ensures Inv()
      ensures client == if old(eosReceived) || fails then Ready else DrainWait
      ensures !eosReceived && eos == !old(eosReceived)
      ensures ret == if fails && !old(eosReceived) then Foreign else Ok
    {
      ret := Ok;
      if !eosReceived {
        eos := true;
        if fails {
          return Foreign;
        }
        client := DrainWait;
        return;
      }
      eosReceived := false;
    }

    /** A drain that was signalled finishes. */
    method DrainResume()
      requires Inv() && client.DrainWoken?
      modifies this`eosReceived, this`client
      ensures Inv() && client == Ready && !eosReceived
    {
      eosReceived := false;
      client := Ready;
    }

    method PartialDrain(fails: bool) returns (ret: Status)
      requires Inv() && client.Ready?
      modifies this`earlyEos, this`client
      ensures Inv() && earlyEos
      ensures client == (if fails then Ready else PartialWait) && ret == if fails then Foreign else Ok
    {
      earlyEos := true;
      if fails {
        return Foreign;
      }
      client := PartialWait;
      ret := Ok;
    }

    method PartialResume()
      requires Inv() && client.PartialWoken?
      modifies this`client
      ensures Inv() && client == Ready
    {
      client := Ready;
    }

    // ------------------------------------------------------------ controller

    /** First section of agm_compress_stop: wakes a drain and counts as a received end of stream. */
    method StopReleaseEos()
      requires Inv() && controller.Idle?
      modifies this`eos, this`eosReceived, this`client, this`controller
      ensures Inv() && controller == EosReleased && !eos && eosReceived
      ensures client == if old(client).DrainWait? then DrainWoken else old(client)
    {
      if eos {
        Signal();
        eos := false;
      }
      eosReceived := true;
      controller := EosReleased;
    }

    method StopReleaseEarly()
      requires Inv() && controller.EosReleased?
      modifies this`earlyEos, this`client, this`controller
      ensures Inv() && controller == EarlyReleased && !earlyEos
      ensures client == if old(client).PartialWait? then PartialWoken else old(client)
    {
      if earlyEos {
        SignalEarly();
        earlyEos := false;
      }
      controller := EarlyReleased;
    }

    /** The session stop drops whatever the DSP held: until the credit is reset, that much credit is missing. */
    method StopDrop(fails: bool) returns (ret: Status)
      requires Inv() && controller.EarlyReleased?
      modifies this`inFlight, this`controller
      ensures Inv() && ret == if fails then Foreign else Ok
      ensures if fails then controller == Idle && inFlight == old(inFlight) else controller == Dropped && inFlight == 0
      ensures Drift() == old(Drift()) - (if fails then 0 else Times(old(inFlight), fragment))
    {
      if fails {
        controller := Idle;
        return Foreign;
      }
      inFlight := 0;
      controller := Dropped;
      ret := Ok;
    }

    /** The credit reset at the end of agm_compress_stop forgets what was submitted and what was accounted. */
    method StopReset()
      requires Inv() && controller.Dropped?
      modifies this`bytesAvail, this`bytesCopied, this`controller
      ensures Inv() && controller == Idle && bytesAvail == total && bytesCopied == 0
      ensures Drift() == Times(inFlight, fragment) - Times(Pending(), fragment)
      ensures Credit() <==> inFlight == Pending()
    {
      TimesOrdered(Pending(), inFlight, fragment);
      TimesOrdered(inFlight, Pending(), fragment);
      bytesAvail := total;
      bytesCopied := 0;
      controller := Idle;
    }

    /** First lock section of agm_compress_close: wakes a blocked drain. */
    method CloseReleaseEos()
      requires Inv() && controller.Idle?
      modifies this`eos, this`client, this`controller
      ensures Inv() && controller == Closing && !eos && Drift() == old(Drift())
      ensures client == if old(client).DrainWait? then DrainWoken else old(client)
    {
      if eos {
        Signal();
        eos := false;
      }
      controller := Closing;
    }

    /** Second lock section: wakes a blocked partial drain. */
    method CloseReleaseEarly()
      requires Inv() && controller.Closing?
      modifies this`earlyEos, this`client, this`controller
      ensures Inv() && controller == Closed && !earlyEos && Drift() == old(Drift())
      ensures client == if old(client).PartialWait? then PartialWoken else old(client)
    {
      if earlyEos {
        SignalEarly();
        earlyEos := false;
      }
      controller := Closed;
    }

    // ------------------------------------------------------------ runs

    /**
     Every interleaving: a step whose thread is elsewhere is not taken, and the DSP takes no more fragments
     than it has room for.  Credit is conserved exactly if the last reset of a stop found every fragment that
     the DSP held still unaccounted, which it does if no write is half done between a drop and its reset.
     */
    method Run(steps: seq<Step>)
      requires Inv() && Credit() && !controller.Dropped?
      modifies this
      ensures Inv() && Now() == AfterAll(Setup(), old(Now()), steps)
      ensures !controller.Dropped? ==> (Credit() <==> Settled(Setup(), old(Now()), steps))
      ensures Quiet(Setup(), old(Now()), steps) ==> Settled(Setup(), old(Now()), steps)
    {
      for i := 0 to |steps|
        invariant Inv() && Now() == AfterAll(Setup(), old(Now()), steps[..i])
      {
        assert steps[..i + 1][..i] == steps[..i];
        Do(steps[i]);
      }
      assert steps[..|steps|] == steps;
      CreditLaw(Setup(), old(Now()), steps);
    }

    /** One step of any thread. */
    method Do(step: Step)
      requires Inv()
      modifies this
      ensures Inv() && Now() == After(Setup(), old(Now()), step)
    {
      if !controller.Closed? {
        match step {
          case StepSubmit(length, taken, fails) =>
            if client.Ready? && taken <= length && inFlight + Fragments(taken, fragment) <= count {
              var _ := Submit(length, taken, fails);
            }
          case StepAccount => if client.Writing? { var _ := Account(); }
          case StepWriteDone => if inFlight > 0 { WriteDone(); }
          case StepDrain(fails) => if client.Ready? { var _ := Drain(fails); }
          case StepDrainResume => if client.DrainWoken? { DrainResume(); }
          case StepPartialDrain(fails) => if client.Ready? { var _ := PartialDrain(fails); }
          case StepPartialResume => if client.PartialWoken? { PartialResume(); }
          case StepEosRendered => EosRendered();
          case StepEarlyEos => EarlyEos();
          case StepStop(fails) => StopStep(fails);
          case StepClose =>
            if controller.Idle? {
              CloseReleaseEos();
            } else if controller.Closing? {
              CloseReleaseEarly();
            }
        }
      }
    }

    /** The controller's next section of a stop. */
    method StopStep(fails: bool)
      requires Inv() && !controller.Closed?
      modifies this
      ensures Inv() && Now() == AfterStop(Setup(), old(Now()), fails)
    {
      match controller {
        case Idle => StopReleaseEos();
        case EosReleased => StopReleaseEarly();
        case EarlyReleased => var _ := StopDrop(fails);
        case Dropped => StopReset();
        case Closing | Closed =>
      }
    }
  }

  /**
   A stop in the middle of a write: the credit reset comes before the accounting, which then takes credit for
   fragments that are gone.  The stream ends up with no credit and nothing in flight that could return any.
   */
  method StopDuringWrite(fragment: nat) returns (s: Stream)
    requires fragment > 0
    ensures fresh(s) && s.Inv() && s.client == Ready && s.controller == Idle
    ensures s.total == fragment && s.inFlight == 0 && s.bytesAvail == 0 && s.Drift() == 0 - s.total
  {
    s := new Stream(fragment, 1);
    var _ := s.Submit(fragment, fragment, false);
    s.StopReleaseEos();
    s.StopReleaseEarly();
    var _ := s.StopDrop(false);
    s.StopReset();
    var _ := s.Account();
  }

  /** A WRITE_DONE that overtakes the accounting of its write: the whole credit is back, and no poller was woken. */
  method Overtaken(fragment: nat) returns (s: Stream)
    requires fragment > 0
    ensures fresh(s) && s.Inv() && s.Credit() && s.client == Ready && s.controller == Idle
    ensures s.inFlight == 0 && s.bytesAvail == s.total == s.bytesCopied == fragment && s.polls == 0
  {
    s := new Stream(fragment, 1);
    var _ := s.Submit(fragment, fragment, false);
    s.WriteDone();
    var _ := s.Account();
  }
}
