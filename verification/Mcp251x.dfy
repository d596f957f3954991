/**
 Transmission in the MCP251x CAN driver: one frame at a time, first pending in `tx_skb`, then in
 flight with its length in `tx_len`, with an echo slot in the CAN device core. Handlers that run
 under the lock, in timer context or from the network stack are atomic steps in any order.
 `State` is the driver as a value together with a history of the frames; `Driver` is the code.
 */
module Mcp251x {
  import opened Common

  /** `valid` is the verdict of `can_dropped_invalid_skb`; `loopback` asks for the local echo. */
  datatype Skb = Skb(id: nat, dlc: nat, valid: bool, loopback: bool)

  /** How a frame that was accepted from the network stack leaves the driver. */
  datatype Fate = Echoed(skb: Skb) | Freed(skb: Skb)

  /** History: the frames accepted, their fates, and whether an occupied echo slot was ever met. */
  datatype History = History(accepted: seq<Skb>, ended: seq<Fate>, occupied: bool)
  {
    function Add(fate: Fate): History { this.(ended := ended + [fate]) }
  }

  /** `tx_skb`, `tx_len` and the echo slot. */
  datatype Slot = Slot(skb: Option<Skb>, len: nat, echo: Option<Skb>, h: History)
  {
    predicate Busy() { skb.Some? || len != 0 }
  }

  datatype Flag = Rx | Tx | Err

  /** `after_suspend`, which is only ever assigned one of its bits as far as transmission goes. */
  datatype Suspension = NoSuspend | AfterUp | AfterRestart

  datatype Phase = Down | Up | Flushed | Stopping | Suspended

  /** The network device: closed, open, being closed or asleep; and whether its transmit queue is stopped. */
  datatype Net = Net(phase: Phase, stopped: bool)

  /** The two work items: whether they are queued. */
  datatype Queue = Queue(tx: bool, restart: bool)

  /** `manual` is a zero `restart_ms`, `after` the field `after_suspend`. */
  datatype State = State(manual: bool, net: Net, wq: Queue, slot: Slot,
                         forceQuit: bool, restartTx: bool, after: Suspension, busOff: bool)

  datatype Step =
    | Xmit(skb: Skb)
    | TxWork(cloned: bool)
    | Ist(intf: set<Flag>, txbo: bool)
    | Restart
    | RestartWork(normal: bool)
    | Open(ok: bool)
    | Flush
    | Quit
    | StopFinish
    | Suspend
    | Resume

  function Initial(manual: bool): State {
    State(manual, Net(Down, true), Queue(false, false), Slot(None, 0, None, History([], [], false)),
          false, false, NoSuspend, false)
  }

  /** The interrupt is requested. */
  predicate Listening(s: State) { s.net.phase == Up || s.net.phase == Flushed }

  /** The work queue exists. */
  predicate Working(s: State) { Listening(s) || s.net.phase == Stopping }

  predicate Can(s: State, step: Step) {
    match step
    case Xmit(_) => s.net.phase == Up
    case TxWork(_) => s.wq.tx && Working(s)
    case Ist(_, _) => Listening(s) && !s.forceQuit
    case Restart => s.net.phase == Up
    case RestartWork(_) => s.wq.restart && Working(s)
    case Open(_) => s.net.phase == Down
    case Flush => s.net.phase == Up
    case Quit => s.net.phase == Flushed
    case StopFinish => s.net.phase == Stopping && !s.wq.tx && !s.wq.restart
    case Suspend => s.net.phase == Up
    case Resume => s.net.phase == Suspended
  }

  // ----- the slots -----

  /** `can_flush_echo_skb`, `can_free_echo_skb` */
  function EchoFreed(t: Slot): Slot {
    if t.echo.None? then t else t.(echo := None, h := t.h.Add(Freed(t.echo.value)))
  }

  /** `can_get_echo_skb` */
  function EchoReturned(t: Slot): Slot {
    if t.echo.None? then t else t.(echo := None, h := t.h.Add(Echoed(t.echo.value)))
  }

  /** `can_put_echo_skb`; a shared frame is cloned, which can fail. */
  function EchoPut(t: Slot, skb: Skb, cloned: bool): Slot {
    if !skb.loopback then t.(h := t.h.Add(Freed(skb)))
    else if t.echo.Some? then t.(h := t.h.Add(Freed(skb)).(occupied := true))
    else if !cloned then t.(h := t.h.Add(Freed(skb)))
    else t.(echo := Some(skb))
  }

  /** `mcp251x_clean` */
  function Cleaned(t: Slot): Slot {
    var t1 := if t.skb.Some? then t.(h := t.h.Add(Freed(t.skb.value))) else t;
    var t2 := if t.len != 0 then EchoFreed(t1) else t1;
    t2.(skb := None, len := 0)
  }

  /** `tx_len` of a frame: its data bytes, at most 8, and 1. */
  function LengthOf(skb: Skb): nat { 1 + if skb.dlc > 8 then 8 else skb.dlc }

  /** The pending frame goes to the controller and into the echo slot. */
  function Sent(t: Slot, cloned: bool): Slot
    requires t.skb.Some?
  {
    EchoPut(t.(len := LengthOf(t.skb.value)), t.skb.value, cloned).(skb := None)
  }

  // ----- the steps -----

  function Xmitted(s: State, skb: Skb): State {
    var t, taken := s.slot, s.slot.h.(accepted := s.slot.h.accepted + [skb]);
    if t.Busy() then s
    else if !skb.valid then s.(slot := t.(h := taken.Add(Freed(skb))))
    else s.(slot := t.(skb := Some(skb), h := taken), net := s.net.(stopped := true), wq := s.wq.(tx := true))
  }

  function TxWorked(s: State, cloned: bool): State {
    var s1 := s.(wq := s.wq.(tx := false));
    if s.slot.skb.None? then s1
    else if s.busOff then s1.(slot := Cleaned(s.slot))
    else s1.(slot := Sent(s.slot, cloned))
  }

  /** One pass of the interrupt handler's loop. */
  function Interrupted(s: State, intf: set<Flag>, txbo: bool): State {
    if txbo && s.manual then s.(busOff := txbo, forceQuit := true)
    else if Tx !in intf then s.(busOff := txbo)
    else s.(busOff := txbo, net := s.net.(stopped := false),
            slot := if s.slot.len != 0 then EchoReturned(s.slot).(len := 0) else s.slot)
  }

  /** `can_restart` and `mcp251x_do_set_mode` */
  function Restarted(s: State): State {
    s.(slot := Cleaned(EchoFreed(s.slot)), busOff := false, restartTx := true, wq := s.wq.(restart := true),
       after := if s.manual then AfterRestart else s.after)
  }

  /** The first half of the restart work: bringing the controller back. */
  function Reset(s: State, normal: bool): State {
    var s1 := s.(after := NoSuspend, forceQuit := false, busOff := s.busOff && !normal);
    match s.after
    case NoSuspend => s
    case AfterRestart => s1
    case AfterUp => s1.(slot := Cleaned(s.slot), net := s.net.(stopped := false))
  }

  /** The second half: the transmission starts afresh. */
  function RestartedTx(s: State): State {
    if s.restartTx then s.(restartTx := false, slot := Cleaned(s.slot), net := s.net.(stopped := false)) else s
  }

  function RestartWorked(s: State, normal: bool): State {
    RestartedTx(Reset(s.(wq := s.wq.(restart := false)), normal))
  }

  function Opened(s: State, ok: bool): State {
    var t := s.slot.(skb := None, len := 0);
    if ok then s.(forceQuit := false, slot := t, busOff := false, net := Net(Up, false))
    else s.(forceQuit := false, slot := EchoFreed(t))
  }

  /** The parts of `mcp251x_stop`: `close_candev`, then `force_quit` and freeing the interrupt, ... */
  function Closing(s: State): State { s.(slot := EchoFreed(s.slot), net := s.net.(phase := Flushed)) }

  function Quitting(s: State): State { s.(forceQuit := true, net := s.net.(phase := Stopping)) }

  /** ... and what comes after the work queue is gone. */
  function Closed(s: State): State {
    s.(slot := Cleaned(s.slot), busOff := false, net := s.net.(phase := Down))
  }

  function FellAsleep(s: State): State {
    s.(forceQuit := true, after := AfterUp, net := s.net.(phase := Suspended, stopped := true))
  }

  function Resumed(s: State): State {
    s.(forceQuit := false, wq := s.wq.(restart := true), net := s.net.(phase := Up))
  }

  function Next(s: State, step: Step): State
    requires Can(s, step)
  {
    match step
    case Xmit(skb) => Xmitted(s, skb)
    case TxWork(cloned) => TxWorked(s, cloned)
    case Ist(intf, txbo) => Interrupted(s, intf, txbo)
    case Restart => Restarted(s)
    case RestartWork(normal) => RestartWorked(s, normal)
    case Open(ok) => Opened(s, ok)
    case Flush => Closing(s)
    case Quit => Quitting(s)
    case StopFinish => Closed(s)
    case Suspend => FellAsleep(s)
    case Resume => Resumed(s)
  }

  // ----- the invariant -----

  function Skbs(fates: seq<Fate>): (r: seq<Skb>)
    ensures |r| == |fates|
  {
    if fates == [] then [] else Skbs(fates[..|fates| - 1]) + [fates[|fates| - 1].skb]
  }

  /** The frame the driver holds, in the echo slot or pending. */
  function Held(t: Slot): Option<Skb> { if t.echo.Some? then t.echo else t.skb }

  /** The frames accepted are those that ended, in the same order, and then the one still held. */
  predicate Conserved(t: Slot) {
    t.h.accepted == if Held(t).Some? then Skbs(t.h.ended) + [Held(t).value] else Skbs(t.h.ended)
  }

  /** A pending frame and one in flight exclude each other, and only the latter has an echo. */
  predicate OneFrame(t: Slot) {
    && !(t.skb.Some? && t.len != 0)
    && (t.echo.Some? ==> t.len != 0)
    && !t.h.occupied
  }

  predicate SlotInv(t: Slot) { OneFrame(t) && Conserved(t) }

  /**
   Work is queued exactly when there is a reason, and none is when the device is closed. The interrupt
   handler of an open device only ever gave up for want of an automatic restart.
   */
  predicate WorkQueued(s: State) {
    && (s.slot.skb.Some? ==> s.wq.tx)
    && (s.restartTx ==> s.wq.restart)
    && (s.after != NoSuspend ==> s.wq.restart || s.net.phase == Suspended)
    && (s.wq.restart ==> s.restartTx || s.after != NoSuspend)
    && (s.after == AfterRestart ==> s.restartTx && s.manual)
    && (s.net.phase == Suspended ==> s.after == AfterUp && s.net.stopped && s.forceQuit)
    && (Listening(s) && s.forceQuit ==> s.manual)
    && (s.net.phase == Down ==> !s.slot.Busy() && !s.wq.tx && !s.wq.restart)
  }

  predicate Inv(s: State) { SlotInv(s.slot) && WorkQueued(s) }

  lemma SkbsSnoc(fates: seq<Fate>, f: Fate)
    ensures Skbs(fates + [f]) == Skbs(fates) + [f.skb]
  {
    assert (fates + [f])[..|fates|] == fates;
  }

  lemma EchoFreedKeeps(t: Slot)
    requires SlotInv(t)
    ensures SlotInv(EchoFreed(t)) && EchoFreed(t).echo == None
    ensures EchoFreed(t).skb == t.skb && EchoFreed(t).len == t.len
  {
    hide Skbs;
    if t.echo.Some? { SkbsSnoc(t.h.ended, Freed(t.echo.value)); }
  }

  lemma EchoReturnedKeeps(t: Slot)
    requires SlotInv(t) && t.len != 0
    ensures SlotInv(EchoReturned(t).(len := 0)) && EchoReturned(t).skb == None
  {
    hide Skbs;
    if t.echo.Some? { SkbsSnoc(t.h.ended, Echoed(t.echo.value)); }
  }

  lemma CleanedKeeps(t: Slot)
    requires SlotInv(t)
    ensures SlotInv(Cleaned(t)) && !Cleaned(t).Busy() && Cleaned(t).echo == None
  {
    hide Skbs;
    if t.skb.Some? { SkbsSnoc(t.h.ended, Freed(t.skb.value)); }
    if t.echo.Some? { SkbsSnoc(t.h.ended, Freed(t.echo.value)); }
  }

  lemma SentKeeps(t: Slot, cloned: bool)
    requires SlotInv(t) && t.skb.Some?
    ensures SlotInv(Sent(t, cloned)) && Sent(t, cloned).Busy() && Sent(t, cloned).skb == None
  {
    hide Skbs;
    SkbsSnoc(t.h.ended, Freed(t.skb.value));
  }

  lemma XmitKeeps(s: State, skb: Skb)
    requires Inv(s) && s.net.phase == Up
    ensures Inv(Xmitted(s, skb))
  {
    hide Skbs;
    SkbsSnoc(s.slot.h.ended, Freed(skb));
  }

  lemma TxWorkKeeps(s: State, cloned: bool)
    requires Inv(s) && Working(s)
    ensures Inv(TxWorked(s, cloned))
  {
    hide SlotInv, Cleaned, Sent;
    CleanedKeeps(s.slot);
    if s.slot.skb.Some? { SentKeeps(s.slot, cloned); }
  }

  lemma IstKeeps(s: State, intf: set<Flag>, txbo: bool)
    requires Inv(s) && Listening(s)
    ensures Inv(Interrupted(s, intf, txbo))
  {
    hide SlotInv, EchoReturned;
    if s.slot.len != 0 { EchoReturnedKeeps(s.slot); }
  }

  lemma RestartKeeps(s: State)
    requires Inv(s) && s.net.phase == Up
    ensures Inv(Restarted(s))
  {
    hide SlotInv, Cleaned, EchoFreed;
    EchoFreedKeeps(s.slot);
    CleanedKeeps(EchoFreed(s.slot));
  }

  lemma RestartWorkKeeps(s: State, normal: bool)
    requires Inv(s) && Working(s)
    ensures Inv(RestartWorked(s, normal))
  {
    hide SlotInv, Cleaned;
    CleanedKeeps(s.slot);
    CleanedKeeps(Cleaned(s.slot));
  }

  lemma StopKeeps(s: State)
    requires Inv(s)
    ensures s.net.phase == Up ==> Inv(Closing(s))
    ensures s.net.phase == Flushed ==> Inv(Quitting(s))
    ensures s.net.phase == Stopping && !s.wq.tx && !s.wq.restart ==> Inv(Closed(s))
  {
    hide SlotInv, Cleaned, EchoFreed;
    EchoFreedKeeps(s.slot);
    CleanedKeeps(s.slot);
  }

  lemma OpenKeeps(s: State, ok: bool)
    requires Inv(s) && s.net.phase == Down
    ensures Inv(Opened(s, ok)) && Opened(s, ok).slot == s.slot
  {
    hide Skbs;
  }

  lemma SleepKeeps(s: State)
    requires Inv(s)
    ensures s.net.phase == Up ==> Inv(FellAsleep(s))
    ensures s.net.phase == Suspended ==> Inv(Resumed(s))
  {
    hide SlotInv;
  }

  /** Every step keeps the invariant. */
  lemma StepKeeps(s: State, step: Step)
    requires Inv(s) && Can(s, step)
    ensures Inv(Next(s, step))
  {
    hide Inv, Xmitted, TxWorked, Interrupted, Restarted, RestartWorked, Opened, Closing, Quitting, Closed, FellAsleep,
      Resumed;
    match step
    case Xmit(skb) => XmitKeeps(s, skb);
    case TxWork(cloned) => TxWorkKeeps(s, cloned);
    case Ist(intf, txbo) => IstKeeps(s, intf, txbo);
    case Restart => RestartKeeps(s);
    case RestartWork(normal) => RestartWorkKeeps(s, normal);
    case Open(ok) => OpenKeeps(s, ok);
    case Flush => StopKeeps(s);
    case Quit => StopKeeps(s);
    case StopFinish => StopKeeps(s);
    case Suspend => SleepKeeps(s);
    case Resume => SleepKeeps(s);
  }

  predicate Runs(s: State, run: seq<Step>)
    decreases |run|, 0
  {
    run == [] || (Runs(s, run[..|run| - 1]) && Can(After(s, run[..|run| - 1]), run[|run| - 1]))
  }

  function After(s: State, run: seq<Step>): State
    requires Runs(s, run)
    decreases |run|, 1
  {
    if run == [] then s else Next(After(s, run[..|run| - 1]), run[|run| - 1])
  }

  lemma {:induction false} RunKeeps(manual: bool, run: seq<Step>)
    requires Runs(Initial(manual), run)
    ensures Inv(After(Initial(manual), run))
  {
    if run == [] {
    } else {
      RunKeeps(manual, run[..|run| - 1]);
      StepKeeps(After(Initial(manual), run[..|run| - 1]), run[|run| - 1]);
    }
  }

  lemma {:induction false} SkbsAt(fates: seq<Fate>, i: nat)
    requires i < |fates|
    ensures Skbs(fates)[i] == fates[i].skb
  {
    if i < |fates| - 1 {
      SkbsAt(fates[..|fates| - 1], i);
    }
  }

  /** Fates come in the order of acceptance, one to a frame, and at most one frame has none yet. */
  predicate EndedOnceInOrder(accepted: seq<Skb>, ended: seq<Fate>) {
    && |ended| <= |accepted| <= |ended| + 1
    && forall i :: 0 <= i < |ended| ==> ended[i].skb == accepted[i]
  }

  /**
   In every run: the pending frame and the one in flight exclude each other, an echo is kept
   only for a frame in flight, the occupied echo slot is never met, every accepted frame is
   echoed or freed at most once and in order, and all of them are once the device is closed.
   */
  lemma Transmission(manual: bool, run: seq<Step>)
    requires Runs(Initial(manual), run)
    ensures var s := After(Initial(manual), run); var t := s.slot;
            && !(t.skb.Some? && t.len != 0) && (t.echo.Some? ==> t.len != 0) && !t.h.occupied
            && EndedOnceInOrder(t.h.accepted, t.h.ended)
            && (|t.h.ended| < |t.h.accepted| <==> t.skb.Some? || t.echo.Some?)
            && (t.skb.Some? ==> s.wq.tx && t.h.accepted[|t.h.ended|] == t.skb.value)
            && (t.echo.Some? ==> t.h.accepted[|t.h.ended|] == t.echo.value)
            && (s.net.phase == Down ==> |t.h.ended| == |t.h.accepted|)
  {
    var t := After(Initial(manual), run).slot;
    RunKeeps(manual, run);
    hide Skbs;
    forall i | 0 <= i < |t.h.ended| ensures t.h.ended[i].skb == t.h.accepted[i] {
      SkbsAt(t.h.ended, i);
    }
  }

  // ----- when the queue stays stopped -----

  /** The device is open with its queue stopped, no frame under way, and no restart to come. */
  predicate Stuck(s: State) {
    s.net.phase == Up && s.net.stopped && !s.slot.Busy() && !s.wq.restart
  }

  /** The transmit work is about to throw away the pending frame because of bus-off. */
  predicate Discards(s: State, step: Step) {
    step.TxWork? && s.net.phase == Up && s.slot.skb.Some? && s.busOff && s.net.stopped && !s.wq.restart
  }

  /** A transmit interrupt, a restart, another frame, or an end of the open phase. */
  predicate Frees(s: State, step: Step) {
    match step
    case Ist(intf, txbo) => Tx in intf && !(txbo && s.manual)
    case Xmit(skb) => skb.valid
    case Restart => true
    case Flush => true
    case Suspend => true
    case _ => false
  }

  /** Exactly that discarding gets the queue stuck, and exactly these steps get it out. */
  lemma StuckExact(s: State, step: Step)
    requires Inv(s) && Can(s, step)
    ensures Stuck(Next(s, step)) <==> if Stuck(s) then !Frees(s, step) else Discards(s, step)
    ensures Stuck(s) ==> !Discards(s, step)
  {
    hide Conserved, EchoFreed, EchoReturned;
  }

  /** Step `i` of the run discards a frame and no later one frees the queue. */
  predicate StuckSince(s: State, run: seq<Step>, i: nat)
    requires Runs(s, run)
    decreases |run|
  {
    i < |run| &&
    var front := run[..|run| - 1];
    if i == |run| - 1 then Discards(After(s, front), run[i])
    else StuckSince(s, front, i) && !Frees(After(s, front), run[|run| - 1])
  }

  /**
   Over every run: an open device ends up with its queue stopped and nothing under way to wake it if
   and only if the transmit work has discarded a frame during bus-off and nothing freed it since.
   */
  lemma {:induction false} StuckInRuns(manual: bool, run: seq<Step>)
    requires Runs(Initial(manual), run)
    ensures Stuck(After(Initial(manual), run)) <==> exists i: nat :: StuckSince(Initial(manual), run, i)
  {
    var s := Initial(manual);
    if run == [] {
    } else {
      var front, n := run[..|run| - 1], |run| - 1;
      var t := After(s, front);
      StuckInRuns(manual, front);
      RunKeeps(manual, front);
      StuckExact(t, run[n]);
      hide Inv, Stuck, Discards, Frees, Next, Can, Runs, After;
      if Stuck(t) {
        if !Frees(t, run[n]) {
          var i: nat :| StuckSince(s, front, i);
          SinceNext(s, run, i);
        }
      } else if Discards(t, run[n]) {
        SinceNext(s, run, n);
      }
      forall j: nat | StuckSince(s, run, j)
        ensures if Stuck(t) then !Frees(t, run[n]) else Discards(t, run[n])
      {
        SinceNext(s, run, j);
      }
    }
  }

  lemma SinceNext(s: State, run: seq<Step>, i: nat)
    requires run != [] && Runs(s, run)
    ensures var front, n := run[..|run| - 1], |run| - 1; var t := After(s, front);
            StuckSince(s, run, i) <==>
              if i == n then Discards(t, run[n]) else StuckSince(s, front, i) && !Frees(t, run[n])
  {
  }

  lemma RunSnoc(s: State, run: seq<Step>, step: Step)
    requires Runs(s, run) && Can(After(s, run), step)
    ensures Runs(s, run + [step]) && After(s, run + [step]) == Next(After(s, run), step)
  {
    assert (run + [step])[..|run|] == run;
  }

  /** It happens: with automatic restart the bus recovers, and the queue is still stopped. */
  lemma StrandedExample(f: Skb)
    requires f.valid
    ensures var run := [Open(true), Xmit(f), Ist({Err}, true), TxWork(true), Ist({Err}, false)];
            && Runs(Initial(false), run)
            && var s := After(Initial(false), run);
            && Stuck(s) && !s.wq.tx && !s.busOff && !s.forceQuit
  {
    hide Runs, After;
    var s := Initial(false);
    NoSteps(s);
    RunSnoc(s, [], Open(true));
    RunSnoc(s, [] + [Open(true)], Xmit(f));
    var run := [] + [Open(true)] + [Xmit(f)];
    RunSnoc(s, run, Ist({Err}, true));
    RunSnoc(s, run + [Ist({Err}, true)], TxWork(true));
    RunSnoc(s, run + [Ist({Err}, true)] + [TxWork(true)], Ist({Err}, false));
    assert run + [Ist({Err}, true)] + [TxWork(true)] + [Ist({Err}, false)]
        == [Open(true), Xmit(f), Ist({Err}, true), TxWork(true), Ist({Err}, false)];
  }

  lemma NoSteps(s: State)
    ensures Runs(s, []) && After(s, []) == s
  {
  }

  // ----- which frames are echoed -----

  /** A transmit interrupt that finds the frame in flight in the echo slot. */
  predicate Completes(s: State, step: Step) {
    step.Ist? && Tx in step.intf && !(step.txbo && s.manual) && s.slot.echo.Some?
  }

  /** The fates `was` are a beginning of those in `now`, and no frame after them is echoed. */
  predicate OnlyFrees(was: seq<Fate>, now: seq<Fate>) {
    |was| <= |now| && now[..|was|] == was && forall i :: |was| <= i < |now| ==> now[i].Freed?
  }

  lemma FreesFollow(a: seq<Fate>, b: seq<Fate>, c: seq<Fate>)
    requires OnlyFrees(a, b) && OnlyFrees(b, c)
    ensures OnlyFrees(a, c)
  {
    forall i | 0 <= i < |a| ensures c[i] == a[i] {
      assert c[i] == c[..|b|][i] && b[i] == b[..|a|][i];
    }
  }

  lemma SlotsFree(t: Slot, cloned: bool)
    ensures OnlyFrees(t.h.ended, EchoFreed(t).h.ended) && OnlyFrees(t.h.ended, Cleaned(t).h.ended)
    ensures t.skb.Some? ==> OnlyFrees(t.h.ended, Sent(t, cloned).h.ended)
  {
  }

  /** Exactly a completing step echoes, and it echoes the one frame in the echo slot. */
  lemma FateExact(s: State, step: Step)
    requires Inv(s) && Can(s, step)
    ensures var was, now := s.slot.h.ended, Next(s, step).slot.h.ended;
            if Completes(s, step) then now == was + [Echoed(s.slot.echo.value)] else OnlyFrees(was, now)
  {
    hide Conserved, Cleaned, EchoFreed, Sent;
    SlotsFree(s.slot, step.TxWork? && step.cloned);
    SlotsFree(Cleaned(s.slot), false);
    SlotsFree(EchoFreed(s.slot), false);
    var t, t', t'' := s.slot, Cleaned(s.slot), EchoFreed(s.slot);
    FreesFollow(t.h.ended, t'.h.ended, Cleaned(t').h.ended);
    FreesFollow(t.h.ended, t''.h.ended, Cleaned(t'').h.ended);
    SlotsFree(t.(skb := None, len := 0), false);
    assert t.echo.Some? ==> t.len != 0;
    hide Inv;
  }

  /** Step `k` of the run completes a frame while `i` frames have ended. */
  predicate CompletedBy(s: State, run: seq<Step>, k: nat, i: nat)
    requires Runs(s, run)
    decreases |run|
  {
    k < |run| &&
    var front := run[..|run| - 1];
    if k == |run| - 1 then Completes(After(s, front), run[k]) && |After(s, front).slot.h.ended| == i
    else CompletedBy(s, front, k, i)
  }

  lemma CompletedNext(s: State, run: seq<Step>, k: nat, i: nat)
    requires run != [] && Runs(s, run)
    ensures var front, n := run[..|run| - 1], |run| - 1; var t := After(s, front);
            CompletedBy(s, run, k, i) <==>
              if k == n then Completes(t, run[n]) && |t.slot.h.ended| == i else CompletedBy(s, front, k, i)
  {
  }

  /** Over every run: a frame is echoed if a transmit interrupt met it in the echo slot, and freed otherwise. */
  lemma {:induction false} EchoedExact(manual: bool, run: seq<Step>, i: nat)
    requires Runs(Initial(manual), run)
    ensures var ended := After(Initial(manual), run).slot.h.ended;
            (i < |ended| && ended[i].Echoed?) <==> exists k: nat :: CompletedBy(Initial(manual), run, k, i)
  {
    var s := Initial(manual);
    if run == [] {
    } else {
      var front, n := run[..|run| - 1], |run| - 1;
      var t := After(s, front);
      var was, now := t.slot.h.ended, After(s, run).slot.h.ended;
      EchoedExact(manual, front, i);
      RunKeeps(manual, front);
      FateExact(t, run[n]);
      hide Inv, Completes, Next, Can, Runs, After, CompletedBy;
      if i < |was| {
        assert now[i] == now[..|was|][i];
      }
      if i < |now| && now[i].Echoed? {
        if i < |was| {
          var k: nat :| CompletedBy(s, front, k, i);
          CompletedNext(s, run, k, i);
        } else {
          CompletedNext(s, run, n, i);
        }
      }
      forall k: nat | CompletedBy(s, run, k, i) ensures i < |now| && now[i].Echoed? {
        CompletedNext(s, run, k, i);
      }
    }
  }

  /** Only valid frames get past the network stack, and only those that ask for it wait for their echo. */
  predicate Genuine(t: Slot) {
    && (t.skb.Some? ==> t.skb.value.valid)
    && (t.echo.Some? ==> t.echo.value.valid && t.echo.value.loopback)
  }

  lemma GenuineSlots(t: Slot, cloned: bool)
    requires Genuine(t)
    ensures Genuine(EchoFreed(t)) && Genuine(EchoReturned(t)) && Genuine(Cleaned(t))
    ensures t.skb.Some? ==> Genuine(Sent(t, cloned))
  {
  }

  lemma GenuineStep(s: State, step: Step)
    requires Genuine(s.slot) && Can(s, step)
    ensures Genuine(Next(s, step).slot)
  {
    hide Cleaned, EchoFreed, EchoReturned, Sent;
    GenuineSlots(s.slot, step.TxWork? && step.cloned);
    GenuineSlots(Cleaned(s.slot), false);
    GenuineSlots(EchoFreed(s.slot), false);
    GenuineSlots(s.slot.(skb := None, len := 0), false);
  }

  /** In every run: a frame that is echoed is valid and asked for it. */
  lemma {:induction false} EchoesGenuine(manual: bool, run: seq<Step>)
    requires Runs(Initial(manual), run)
    ensures var t := After(Initial(manual), run).slot;
            Genuine(t) && forall f :: Echoed(f) in t.h.ended ==> f.valid && f.loopback
  {
    if run == [] {
    } else {
      var front, n := run[..|run| - 1], |run| - 1;
      var t := After(Initial(manual), front);
      EchoesGenuine(manual, front);
      RunKeeps(manual, front);
      GenuineStep(t, run[n]);
      FateExact(t, run[n]);
      hide Inv, Next, Can, Runs, After;
      var was, now := t.slot.h.ended, After(Initial(manual), run).slot.h.ended;
      forall f | Echoed(f) in now ensures f.valid && f.loopback {
        var i :| 0 <= i < |now| && now[i] == Echoed(f);
        if i < |was| { assert was[i] == now[..|was|][i]; }
      }
    }
  }

  // ----- frames get through -----

  /** The device is open and ready for the next frame. */
  predicate Serving(s: State) {
    && s.net == Net(Up, false) && !s.slot.Busy() && !s.forceQuit && !s.busOff
    && !s.wq.restart
  }

  /** One frame: handed over, sent by the transmit work, and reported by a transmit interrupt. */
  function Round(f: Skb, cloned: bool): seq<Step> { [Xmit(f), TxWork(cloned), Ist({Tx}, false)] }

  /** Its fate: the echo is made from a frame that asks for it, if a copy can be had. */
  function RoundFate(f: Skb, cloned: bool): Fate { if f.loopback && cloned then Echoed(f) else Freed(f) }

  /** While the frame is in flight `tx_len` tells its data bytes, and nothing more is taken. */
  predicate InFlight(s: State, f: Skb, echo: bool) {
    && s.net == Net(Up, true) && !s.forceQuit && !s.busOff && !s.wq.restart
    && s.slot.skb == None && s.slot.len - 1 == f.dlc - (if f.dlc <= 8 then 0 else f.dlc - 8)
    && s.slot.echo == if echo then Some(f) else None
  }

  lemma HandedOver(s: State, f: Skb)
    requires Inv(s) && Serving(s) && f.valid
    ensures var t := Next(s, Xmit(f));
            && Can(t, TxWork(true)) && t == s.(net := Net(Up, true), wq := s.wq.(tx := true), slot := t.slot)
            && t.slot == s.slot.(skb := Some(f), h := t.slot.h)
            && t.slot.h.accepted == s.slot.h.accepted + [f] && t.slot.h.ended == s.slot.h.ended
  {
  }

  lemma TakesOff(s: State, f: Skb, cloned: bool)
    requires s.net == Net(Up, true) && !s.forceQuit && !s.busOff && !s.wq.restart && s.wq.tx
    requires s.slot.skb == Some(f) && s.slot.echo == None
    ensures var t := Next(s, TxWork(cloned)); var echo := f.loopback && cloned;
            && InFlight(t, f, echo) && t.slot.h.accepted == s.slot.h.accepted
            && t.slot.h.ended == if echo then s.slot.h.ended else s.slot.h.ended + [Freed(f)]
  {
  }

  lemma Lands(s: State, f: Skb, echo: bool)
    requires InFlight(s, f, echo)
    ensures Can(s, Ist({Tx}, false))
    ensures var t := Next(s, Ist({Tx}, false));
            && Serving(t) && t.slot.h.accepted == s.slot.h.accepted
            && t.slot.h.ended == if echo then s.slot.h.ended + [Echoed(f)] else s.slot.h.ended
  {
  }

  /** One round takes the frame and ends it, and the device is ready for the next. */
  lemma RoundServes(s: State, f: Skb, cloned: bool)
    requires Inv(s) && Serving(s) && f.valid
    ensures Runs(s, Round(f, cloned))
    ensures var t := After(s, Round(f, cloned));
            && Inv(t) && Serving(t) && t.slot.h.accepted == s.slot.h.accepted + [f]
            && t.slot.h.ended == s.slot.h.ended + [RoundFate(f, cloned)]
  {
    NoSteps(s);
    HandedOver(s, f);
    StepKeeps(s, Xmit(f));
    var s1 := Next(s, Xmit(f));
    TakesOff(s1, f, cloned);
    StepKeeps(s1, TxWork(cloned));
    var s2 := Next(s1, TxWork(cloned));
    Lands(s2, f, f.loopback && cloned);
    StepKeeps(s2, Ist({Tx}, false));
    hide Inv, Next, Serving, InFlight, Runs, After;
    RunSnoc(s, [], Xmit(f));
    RunSnoc(s, [] + [Xmit(f)], TxWork(cloned));
    RunSnoc(s, [] + [Xmit(f)] + [TxWork(cloned)], Ist({Tx}, false));
    assert [] + [Xmit(f)] + [TxWork(cloned)] + [Ist({Tx}, false)] == Round(f, cloned);
  }

  lemma {:induction false} RunsOn(s: State, run: seq<Step>, more: seq<Step>)
    requires Runs(s, run) && Runs(After(s, run), more)
    ensures Runs(s, run + more) && After(s, run + more) == After(After(s, run), more)
    decreases |more|
  {
    hide Next, Can;
    if more == [] {
      assert run + more == run;
    } else {
      var n := |more| - 1;
      RunsOn(s, run, more[..n]);
      RunSnoc(s, run + more[..n], more[n]);
      assert run + more == run + more[..n] + [more[n]];
    }
  }

  function Rounds(frames: seq<Skb>): seq<Step> {
    if frames == [] then [] else Rounds(frames[..|frames| - 1]) + Round(frames[|frames| - 1], true)
  }

  /** Any number of frames is echoed, all of them in order. */
  lemma {:induction false} ServesAll(s: State, frames: seq<Skb>)
    requires Inv(s) && Serving(s)
    requires forall f :: f in frames ==> f.valid && f.loopback
    ensures Runs(s, Rounds(frames))
    ensures var t := After(s, Rounds(frames));
            && Inv(t) && Serving(t) && t.slot.h.accepted == s.slot.h.accepted + frames
            && |t.slot.h.ended| == |s.slot.h.ended| + |frames|
            && forall i :: 0 <= i < |frames| ==> t.slot.h.ended[|s.slot.h.ended| + i] == Echoed(frames[i])
  {
    hide Inv, Serving, Runs, After, Round;
    if frames == [] {
      NoSteps(s);
    } else {
      var n := |frames| - 1;
      assert frames == frames[..n] + [frames[n]];
      ServesAll(s, frames[..n]);
      var t := After(s, Rounds(frames[..n]));
      RoundServes(t, frames[n], true);
      RunsOn(s, Rounds(frames[..n]), Round(frames[n], true));
    }
  }

  /** Everything that was accepted has ended and the device is ready. */
  predicate Fresh(s: State) { Inv(s) && Serving(s) && Skbs(s.slot.h.ended) == s.slot.h.accepted }

  /** Opening a closed device makes it ready. */
  lemma OpenServes(s: State)
    requires Inv(s) && s.net.phase == Down
    ensures Fresh(Next(s, Open(true)))
  {
    StepKeeps(s, Open(true));
  }

  lemma StepTwice(s: State, a: Step, b: Step)
    requires Can(s, a) && Can(Next(s, a), b)
    ensures Runs(s, [a, b]) && After(s, [a, b]) == Next(Next(s, a), b)
  {
    NoSteps(s);
    RunSnoc(s, [], a);
    RunSnoc(s, [] + [a], b);
    assert [] + [a] + [b] == [a, b];
  }

  /** A restart makes an open device ready, whatever had happened to it. */
  lemma RestartServes(s: State, normal: bool)
    requires Inv(s) && s.net.phase == Up
    ensures var run := [Restart, RestartWork(normal)]; Runs(s, run) && Fresh(After(s, run))
  {
    var s1 := Next(s, Restart);
    StepKeeps(s, Restart);
    StepKeeps(s1, RestartWork(normal));
    StepTwice(s, Restart, RestartWork(normal));
    hide Skbs, Runs, After, EchoFreed;
  }

  /** So does waking from sleep, if the controller comes up. */
  lemma WakingServes(s: State)
    requires Inv(s) && s.net.phase == Up
    ensures var run := [Suspend, Resume, RestartWork(true)]; Runs(s, run) && Fresh(After(s, run))
  {
    var s1 := Next(s, Suspend);
    var s2 := Next(s1, Resume);
    StepKeeps(s, Suspend);
    StepKeeps(s1, Resume);
    StepKeeps(s2, RestartWork(true));
    StepTwice(s, Suspend, Resume);
    RunSnoc(s, [Suspend, Resume], RestartWork(true));
    assert [Suspend, Resume] + [RestartWork(true)] == [Suspend, Resume, RestartWork(true)];
    hide Skbs, Runs, After;
  }

  /** What the restart work achieves: afterwards nothing is left to do, and what was asked for is done. */
  lemma RestartWorkExact(s: State, normal: bool)
    requires Inv(s) && Can(s, RestartWork(normal))
    ensures var t := Next(s, RestartWork(normal));
            && !t.wq.restart && !t.restartTx && t.after == NoSuspend
            && !t.net.stopped && !t.slot.Busy() && t.slot.echo == None
            && t.forceQuit == (s.forceQuit && s.after == NoSuspend)
            && t.busOff == (s.busOff && (s.after == NoSuspend || !normal))
  {
    hide Conserved;
  }

  /** Without automatic restart the handler has given up on an open device in bus-off. */
  predicate GivenUp(s: State) { s.manual && s.net.phase == Up && s.busOff && s.forceQuit && !s.wq.restart }

  /** Such a device stays so, and sends nothing, until it is restarted, put to sleep or closed. */
  lemma GivenUpExact(s: State, step: Step)
    requires Inv(s) && Can(s, step)
    ensures GivenUp(s) ==>
              && (GivenUp(Next(s, step)) <==> !step.Restart? && !step.Suspend? && !step.Flush?)
              && !Completes(s, step) && Next(s, step).slot.len <= s.slot.len
    ensures !GivenUp(s) && !s.wq.restart ==>
              (GivenUp(Next(s, step)) <==> s.manual && step.Ist? && step.txbo && s.net.phase == Up)
  {
  }

  // ----- the code -----

  /** One reading of the controller's interrupt and error flags. */
  datatype Reading = Reading(intf: set<Flag>, txbo: bool)

  /** The interrupt handler's passes over the readings, until one ends its loop. */
  function Passes(s: State, readings: seq<Reading>): State
    decreases |readings|
  {
    if s.forceQuit || readings == [] then s
    else
      var r := readings[0];
      var s1 := Interrupted(s, r.intf, r.txbo);
      if (r.txbo && s.manual) || r.intf == {} then s1 else Passes(s1, readings[1..])
  }

  /** They are steps of the machine. */
  lemma {:induction false} PassesKeep(s: State, readings: seq<Reading>)
    requires Inv(s) && Listening(s)
    ensures Inv(Passes(s, readings)) && Passes(s, readings).net.phase == s.net.phase
    ensures Passes(s, readings).slot.h.accepted == s.slot.h.accepted
    decreases |readings|
  {
    hide Inv;
    if s.forceQuit || readings == [] {
    } else {
      var r := readings[0];
      StepKeeps(s, Ist(r.intf, r.txbo));
      PassesKeep(Interrupted(s, r.intf, r.txbo), readings[1..]);
    }
  }

  /** After this reading the handler's loop ends. */
  predicate Ends(s: State, r: Reading) { (r.txbo && s.manual) || r.intf == {} }

  /** The loop comes to the reading `k`, and that one reports a transmission. */
  predicate Reports(s: State, readings: seq<Reading>, k: nat) {
    && !s.forceQuit && k < |readings| && Tx in readings[k].intf && !Ends(s, readings[k])
    && forall j :: 0 <= j < k ==> !Ends(s, readings[j])
  }

  /** The handler returns the echo exactly if it comes to a report of the transmission, and then wakes the queue. */
  lemma {:induction false} PassesExact(s: State, readings: seq<Reading>)
    requires s.slot.echo.Some? ==> s.slot.len != 0
    ensures var t := Passes(s, readings);
            if exists k: nat :: Reports(s, readings, k) then
              && t.slot.echo == None && t.slot.len == 0 && !t.net.stopped
              && t.slot.h.ended == s.slot.h.ended + if s.slot.echo.Some? then [Echoed(s.slot.echo.value)] else []
            else t.slot == s.slot && t.net == s.net
    decreases |readings|
  {
    if s.forceQuit || readings == [] {
    } else {
      var r, rest := readings[0], readings[1..];
      var s1 := Interrupted(s, r.intf, r.txbo);
      if Ends(s, r) {
        assert forall k: nat :: Reports(s, readings, k) ==> k == 0;
      } else {
        PassesExact(s1, rest);
        forall k: nat ensures Reports(s1, rest, k) <==> Reports(s, readings, k + 1) {
          ReportsNext(s, s1, readings, k);
        }
        hide Passes;
        assert Passes(s, readings) == Passes(s1, rest) by { PassOn(s, readings); }
        if Tx in r.intf {
          assert Reports(s, readings, 0);
        } else {
          forall k: nat | Reports(s, readings, k) ensures k > 0 && Reports(s1, rest, k - 1) {
          }
        }
      }
    }
  }

  lemma ReportsNext(s: State, s1: State, readings: seq<Reading>, k: nat)
    requires readings != [] && !s.forceQuit && !s1.forceQuit && s1.manual == s.manual && !Ends(s, readings[0])
    ensures Reports(s1, readings[1..], k) <==> Reports(s, readings, k + 1)
  {
    var rest := readings[1..];
    assert forall j :: 0 <= j < |rest| ==> rest[j] == readings[j + 1];
    if Reports(s1, rest, k) {
      forall j | 0 <= j < k + 1 ensures !Ends(s, readings[j]) {
        if j > 0 { assert !Ends(s1, rest[j - 1]); }
      }
    }
    if Reports(s, readings, k + 1) {
      forall j | 0 <= j < k ensures !Ends(s1, rest[j]) {
        assert !Ends(s, readings[j + 1]);
      }
    }
  }

  lemma PassOn(s: State, readings: seq<Reading>)
    requires !s.forceQuit && readings != [] && !Ends(s, readings[0])
    ensures Passes(s, readings) == Passes(Interrupted(s, readings[0].intf, readings[0].txbo), readings[1..])
  {
  }

  /** Once the device is being closed for good, an interrupt does nothing. */
  lemma QuitIsSilent(s: State, readings: seq<Reading>)
    ensures Passes(Quitting(s), readings) == Quitting(s)
  {
  }

  /** Closing: the interrupt handler may still run, then the work items queued do, in either order. */
  function Stopped(s: State, readings: seq<Reading>, txFirst: bool, cloned: bool, normal: bool): State {
    Closed(Drained(Quitting(Passes(Closing(s), readings)), txFirst, cloned, normal))
  }

  function Drained(s: State, txFirst: bool, cloned: bool, normal: bool): State {
    var s1 := if s.wq.tx && txFirst then TxWorked(s, cloned) else s;
    var s2 := if s1.wq.restart then RestartWorked(s1, normal) else s1;
    if s2.wq.tx then TxWorked(s2, cloned) else s2
  }

  /** Whatever was queued, after closing every accepted frame has ended, none by an echo, and nothing is queued. */
  lemma StoppedEndsAll(s: State, readings: seq<Reading>, txFirst: bool, cloned: bool, normal: bool)
    requires Inv(s) && s.net.phase == Up
    ensures var s' := Stopped(s, readings, txFirst, cloned, normal);
            && Inv(s') && s'.net.phase == Down && !s'.wq.tx && !s'.wq.restart && !s'.busOff
            && Skbs(s'.slot.h.ended) == s'.slot.h.accepted && s'.slot.h.accepted == s.slot.h.accepted
            && OnlyFrees(s.slot.h.ended, s'.slot.h.ended)
  {
    hide Inv, Skbs, TxWorked, RestartWorked, Closing, Quitting, Closed, Passes, OnlyFrees;
    StopKeeps(s);
    ClosingRest(s);
    StoppedFrees(s, readings, txFirst, cloned, normal);
    var p := Passes(Closing(s), readings);
    PassesKeep(Closing(s), readings);
    StopKeeps(p);
    ClosingRest(p);
    var s0 := Quitting(p);
    var s1 := if s0.wq.tx && txFirst then TxWorked(s0, cloned) else s0;
    TxWorkKeeps(s0, cloned);
    TxWorkRest(s0, cloned);
    var s2 := if s1.wq.restart then RestartWorked(s1, normal) else s1;
    RestartWorkKeeps(s1, normal);
    RestartWorkRest(s1, normal);
    var s3 := if s2.wq.tx then TxWorked(s2, cloned) else s2;
    TxWorkKeeps(s2, cloned);
    TxWorkRest(s2, cloned);
    StopKeeps(s3);
    ClosingRest(s3);
    ClosedIsEnded(Closed(s3));
  }

  lemma StoppedFrees(s: State, readings: seq<Reading>, txFirst: bool, cloned: bool, normal: bool)
    ensures OnlyFrees(s.slot.h.ended, Stopped(s, readings, txFirst, cloned, normal).slot.h.ended)
  {
    var p := Passes(Closing(s), readings);
    ClosingFrees(s);
    PassesExact(Closing(s), readings);
    assert p.slot.h.ended == Closing(s).slot.h.ended;
    var s0 := Quitting(p);
    assert s0.slot == p.slot;
    hide TxWorked, RestartWorked, Closing, Quitting, Closed, Passes, OnlyFrees;
    var s1 := if s0.wq.tx && txFirst then TxWorked(s0, cloned) else s0;
    var s2 := if s1.wq.restart then RestartWorked(s1, normal) else s1;
    var s3 := if s2.wq.tx then TxWorked(s2, cloned) else s2;
    DrainedFrees(s0, cloned, normal);
    DrainedFrees(s1, cloned, normal);
    DrainedFrees(s2, cloned, normal);
    ClosingFrees(s3);
    FreesFollow(s0.slot.h.ended, s1.slot.h.ended, s2.slot.h.ended);
    FreesFollow(s0.slot.h.ended, s2.slot.h.ended, s3.slot.h.ended);
    FreesFollow(s0.slot.h.ended, s3.slot.h.ended, Closed(s3).slot.h.ended);
    FreesFollow(s.slot.h.ended, s0.slot.h.ended, Closed(s3).slot.h.ended);
  }

  lemma ClosingFrees(s: State)
    ensures OnlyFrees(s.slot.h.ended, Closing(s).slot.h.ended) && Closing(s).slot.echo == None
    ensures OnlyFrees(s.slot.h.ended, Closed(s).slot.h.ended)
  {
    hide EchoFreed, Cleaned;
    SlotsFree(s.slot, false);
    hide OnlyFrees;
    EchoFreedNone(s.slot);
  }

  lemma EchoFreedNone(t: Slot)
    ensures EchoFreed(t).echo == None
  {
  }

  lemma DrainedFrees(s: State, cloned: bool, normal: bool)
    ensures OnlyFrees(s.slot.h.ended, s.slot.h.ended)
    ensures OnlyFrees(s.slot.h.ended, TxWorked(s, cloned).slot.h.ended)
    ensures OnlyFrees(s.slot.h.ended, RestartWorked(s, normal).slot.h.ended)
  {
    hide Cleaned, Sent;
    SlotsFree(s.slot, cloned);
    SlotsFree(Cleaned(s.slot), cloned);
    FreesFollow(s.slot.h.ended, Cleaned(s.slot).h.ended, Cleaned(Cleaned(s.slot)).h.ended);
  }

  lemma ClosingRest(s: State)
    ensures Closing(s).net.phase == Flushed && Closing(s).slot.h.accepted == s.slot.h.accepted
    ensures Quitting(s).net.phase == Stopping && Quitting(s).slot.h.accepted == s.slot.h.accepted
    ensures Closed(s).net.phase == Down && !Closed(s).busOff && Closed(s).slot.h.accepted == s.slot.h.accepted
    ensures Closed(s).wq.tx == s.wq.tx && Closed(s).wq.restart == s.wq.restart
  {
  }

  lemma TxWorkRest(s: State, cloned: bool)
    ensures var s' := TxWorked(s, cloned);
            && !s'.wq.tx && s'.wq.restart == s.wq.restart && s'.net.phase == s.net.phase
            && s'.slot.h.accepted == s.slot.h.accepted
  {
  }

  lemma RestartWorkRest(s: State, normal: bool)
    ensures var s' := RestartWorked(s, normal);
            && s'.wq.tx == s.wq.tx && !s'.wq.restart && s'.net.phase == s.net.phase
            && s'.slot.h.accepted == s.slot.h.accepted
  {
    hide Cleaned;
    CleanedAccepted(s.slot);
    CleanedAccepted(Cleaned(s.slot));
  }

  lemma CleanedAccepted(t: Slot)
    ensures Cleaned(t).h.accepted == t.h.accepted
  {
  }

  lemma ClosedIsEnded(s: State)
    requires Inv(s) && s.net.phase == Down
    ensures Skbs(s.slot.h.ended) == s.slot.h.accepted
  {
  }

  class Driver {
    const manual: bool
    var txSkb: Option<Skb>
    var txLen: nat
    var echoSkb: Option<Skb>
    var net: Net
    var wq: Queue
    var forceQuit: bool
    var restartTx: bool
    var afterSuspend: Suspension
    var busOff: bool
    ghost var history: History

    ghost function SlotView(): Slot
      reads this
    {
      Slot(txSkb, txLen, echoSkb, history)
    }

    ghost function View(): State
      reads this
    {
      State(manual, net, wq, SlotView(), forceQuit, restartTx, afterSuspend, busOff)
    }

    constructor (manual: bool)
      ensures View() == Initial(manual)
    {
      this.manual := manual;
      txSkb, txLen, echoSkb := None, 0, None;
      net, wq := Net(Down, true), Queue(false, false);
      forceQuit, restartTx, afterSuspend, busOff := false, false, NoSuspend, false;
      history := History([], [], false);
    }

    /** `can_free_echo_skb`, and `can_flush_echo_skb` for the one slot there is */
    method FreeEchoSkb()
      modifies `echoSkb, `history
      ensures SlotView() == EchoFreed(old(SlotView()))
    {
      if echoSkb.Some? {
        history := history.Add(Freed(echoSkb.value));
        echoSkb := None;
      }
    }

    /** `can_get_echo_skb` */
    method GetEchoSkb()
      modifies `echoSkb, `history
      ensures SlotView() == EchoReturned(old(SlotView()))
    {
      if echoSkb.Some? {
        history := history.Add(Echoed(echoSkb.value));
        echoSkb := None;
      }
    }

    /** `can_put_echo_skb` */
    method PutEchoSkb(skb: Skb, cloned: bool)
      modifies `echoSkb, `history
      ensures SlotView() == EchoPut(old(SlotView()), skb, cloned)
    {
      if !skb.loopback {
        history := history.Add(Freed(skb));
      } else if echoSkb.None? {
        if cloned { echoSkb := Some(skb); } else { history := history.Add(Freed(skb)); }
      } else {
        history := history.(occupied := true);
        history := history.Add(Freed(skb));
      }
    }

    /** `mcp251x_clean` */
    method Clean()
      modifies `txSkb, `txLen, `echoSkb, `history
      ensures SlotView() == Cleaned(old(SlotView()))
    {
      if txSkb.Some? { history := history.Add(Freed(txSkb.value)); }
      if txLen != 0 { FreeEchoSkb(); }
      txSkb := None;
      txLen := 0;
    }

    /** `mcp251x_hard_start_xmit` */
    method HardStartXmit(skb: Skb) returns (busy: bool)
      modifies this
      ensures View() == Xmitted(old(View()), skb)
      ensures busy == old(txSkb.Some? || txLen != 0) && (busy ==> View() == old(View()))
    {
      if txSkb.Some? || txLen != 0 {
        return true;
      }
      history := history.(accepted := history.accepted + [skb]);
      if !skb.valid {
        history := history.Add(Freed(skb));
        return false;
      }
      net := net.(stopped := true);
      txSkb := Some(skb);
      wq := wq.(tx := true);
      return false;
    }

    /** `mcp251x_tx_work_handler` */
    method TxWorkHandler(cloned: bool)
      modifies this
      ensures View() == TxWorked(old(View()), cloned)
    {
      hide Cleaned, EchoPut;
      wq := wq.(tx := false);
      if txSkb.Some? {
        if busOff {
          Clean();
        } else {
          var frame := txSkb.value;
          var dlc := frame.dlc;
          if dlc > 8 { dlc := 8; }
          txLen := 1 + dlc;
          PutEchoSkb(frame, cloned);
          txSkb := None;
        }
      }
    }

    /** `mcp251x_can_ist`, over the flags it reads from the controller */
    method CanIst(readings: seq<Reading>)
      modifies this
      ensures View() == Passes(old(View()), readings)
    {
      hide Interrupted;
      var i := 0;
      assert readings[0..] == readings;
      while !forceQuit && i < |readings|
        invariant i <= |readings|
        invariant Passes(View(), readings[i..]) == Passes(old(View()), readings)
      {
        var r := readings[i];
        assert readings[i..][0] == r && readings[i..][1..] == readings[i + 1..];
        var quit := HandleFlags(r);
        if quit {
          return;
        }
        i := i + 1;
      }
    }

    /** What the handler's loop does about transmission, for one reading of the flags. */
    method HandleFlags(r: Reading) returns (quit: bool)
      modifies this
      ensures View() == Interrupted(old(View()), r.intf, r.txbo)
      ensures quit == ((r.txbo && manual) || r.intf == {})
    {
      hide EchoReturned;
      busOff := r.txbo;
      if busOff && manual {
        forceQuit := true;
        return true;
      }
      if r.intf == {} {
        return true;
      }
      if Tx in r.intf {
        if txLen != 0 {
          GetEchoSkb();
          txLen := 0;
        }
        net := net.(stopped := false);
      }
      return false;
    }

    /** `can_restart` with `mcp251x_do_set_mode` */
    method CanRestart()
      modifies this
      ensures View() == Restarted(old(View()))
    {
      hide Cleaned, EchoFreed;
      FreeEchoSkb();
      Clean();
      busOff := false;
      restartTx := true;
      if manual { afterSuspend := AfterRestart; }
      wq := wq.(restart := true);
    }

    /** `mcp251x_restart_work_handler`; `normal` says whether the controller came up. */
    method RestartWorkHandler(normal: bool)
      modifies this
      ensures View() == RestartWorked(old(View()), normal)
    {
      hide Cleaned, Reset;
      wq := wq.(restart := false);
      BringBack(normal);
      if restartTx {
        restartTx := false;
        Clean();
        net := net.(stopped := false);
      }
    }

    method BringBack(normal: bool)
      modifies this
      ensures View() == Reset(old(View()), normal)
    {
      hide Cleaned;
      if afterSuspend != NoSuspend {
        if afterSuspend == AfterRestart {
          if normal { busOff := false; }
        } else {
          Clean();
          if normal { busOff := false; }
          net := net.(stopped := false);
        }
        afterSuspend := NoSuspend;
        forceQuit := false;
      }
    }

    /** `mcp251x_open`; `ok` says whether the interrupt and the controller could be set up. */
    method Open(ok: bool)
      modifies this
      ensures View() == Opened(old(View()), ok)
    {
      hide EchoFreed;
      forceQuit := false;
      txSkb := None;
      txLen := 0;
      if !ok {
        FreeEchoSkb();
        return;
      }
      busOff := false;
      net := Net(Up, false);
    }

    /** `destroy_workqueue` runs what is queued. */
    method DestroyWorkqueue(txFirst: bool, cloned: bool, normal: bool)
      modifies this
      ensures View() == Drained(old(View()), txFirst, cloned, normal)
    {
      hide TxWorked, RestartWorked;
      if wq.tx && txFirst { TxWorkHandler(cloned); }
      if wq.restart { RestartWorkHandler(normal); }
      if wq.tx { TxWorkHandler(cloned); }
    }

    /** `mcp251x_stop`, during which the interrupt handler may come in once more. */
    method Stop(readings: seq<Reading>, txFirst: bool, cloned: bool, normal: bool)
      modifies this
      ensures View() == Stopped(old(View()), readings, txFirst, cloned, normal)
    {
      hide EchoFreed, Drained, Cleaned, Passes;
      FreeEchoSkb();
      net := net.(phase := Flushed);
      assert View() == Closing(old(View()));
      CanIst(readings);
      ghost var p := View();
      forceQuit := true;
      net := net.(phase := Stopping);
      assert View() == Quitting(p);
      DestroyWorkqueue(txFirst, cloned, normal);
      ghost var s3 := View();
      Clean();
      busOff := false;
      net := net.(phase := Down);
      assert View() == Closed(s3);
    }

    /** `mcp251x_can_suspend` of an open device */
    method SuspendUp()
      modifies this
      ensures View() == FellAsleep(old(View()))
    {
      forceQuit := true;
      net := net.(phase := Suspended, stopped := true);
      afterSuspend := AfterUp;
    }

    /** `mcp251x_can_resume` of an open device */
    method ResumeUp()
      modifies this
      ensures View() == Resumed(old(View()))
    {
      wq := wq.(restart := true);
      net := net.(phase := Up);
      forceQuit := false;
    }
  }
}
