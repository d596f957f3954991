/**
 Content-change detection of the CAN broadcast manager with throttled notifications. Frames,
 the throttle timer's handler and its tasklet are separate atomic steps that can come in any
 order and at any time. `Op` is the receive operation as a value, with a log of what was sent
 to the user and the newest frame of each element; the class `RxOp` is the code.
 */
module BcmThrottle {
  import opened Arith
  import opened Common

  /** Payload: the 64 data bits as the set of positions that are 1, so masking is intersection. */
  datatype Frame = Frame(data: set<nat>, dlc: nat)

  /** One entry of `last_frames`; the two private flag bits of `can_dlc` are fields of their own. */
  datatype Elem = Elem(data: set<nat>, dlc: nat, recv: bool, thr: bool)

  datatype Note = Note(time: nat, index: nat, data: set<nat>, dlc: nat)

  /** Fixed by RX_SETUP. `ival2` is in microseconds, as the user gives it; the clock runs in ns. */
  datatype Config = Config(filterId: bool, checkDlc: bool, ival2: nat, frames: seq<Frame>)
  {
    predicate Valid() { filterId <==> frames == [] }

    const Period := 1000 * ival2

    /** The first element that takes part; with multiplexing, index 0 holds the multiplex mask. */
    const First := if |frames| > 1 then 1 else 0

    const Elements := if |frames| > 1 then |frames| else 1
  }

  datatype Op = Op(cfg: Config, last: seq<Elem>, lastmsg: nat, timer: Option<nat>, flush: bool,
                   log: seq<Note>, newest: map<nat, Frame>)
  {
    predicate Valid() { cfg.Valid() && |last| == cfg.Elements }
  }

  // ----- the steps -----

  /** `bcm_rx_changed` */
  function Changed(s: Op, i: nat, now: nat): (s': Op)
    requires i < |s.last|
  {
    s.(last := s.last[i := s.last[i].(thr := false)],
       log := s.log + [Note(now, i, s.last[i].data, s.last[i].dlc)])
  }

  /** `bcm_rx_update_and_send` */
  function Update(s: Op, i: nat, rx: Frame, now: nat): (s': Op)
    requires i < |s.last| && s.lastmsg <= now
  {
    var s1 := s.(last := s.last[i := Elem(rx.data, rx.dlc, true, true)]);
    if s.cfg.ival2 == 0 then Changed(s1, i, now)
    else if s.timer.Some? then s1
    else if s.lastmsg != 0 && (now - s.lastmsg) / 1000 < s.cfg.ival2 then
      s1.(timer := Some(s.lastmsg + s.cfg.Period))
    else Changed(s1, i, now).(lastmsg := now)
  }

  predicate Differs(s: Op, i: nat, rx: Frame)
    requires i < |s.last| && i < |s.cfg.frames|
  {
    || !s.last[i].recv
    || s.cfg.frames[i].data * rx.data != s.cfg.frames[i].data * s.last[i].data
    || (s.cfg.checkDlc && rx.dlc != s.last[i].dlc)
  }

  predicate Muxed(cfg: Config, i: nat, rx: Frame)
    requires i < |cfg.frames|
  {
    cfg.frames[0].data * rx.data == cfg.frames[0].data * cfg.frames[i].data
  }

  function FirstMux(cfg: Config, i: nat, rx: Frame): (r: Option<nat>)
    requires i <= |cfg.frames|
    ensures r.Some? ==> i <= r.value < |cfg.frames| && Muxed(cfg, r.value, rx)
    decreases |cfg.frames| - i
  {
    if i == |cfg.frames| then None else if Muxed(cfg, i, rx) then Some(i) else FirstMux(cfg, i + 1, rx)
  }

  /** The element a frame is for. */
  function Target(cfg: Config, rx: Frame): (r: Option<nat>)
    ensures r.Some? ==> cfg.First <= r.value < cfg.Elements
  {
    if |cfg.frames| <= 1 then Some(0) else FirstMux(cfg, 1, rx)
  }

  /** `bcm_rx_handler`, for a frame with the operation's id. */
  function Receive(s: Op, rx: Frame, now: nat): (s': Op)
    requires s.Valid() && s.lastmsg <= now
    ensures s'.Valid()
  {
    match Target(s.cfg, rx)
    case None => s
    case Some(i) =>
      (if s.cfg.filterId || Differs(s, i, rx) then Update(s, i, rx, now) else s).(newest := s.newest[i := rx])
  }

  /** `bcm_rx_thr_flush` with `update`: every throttled element is sent. */
  function FlushFrom(s: Op, i: nat, now: nat): (s': Op)
    requires i <= |s.last|
    ensures |s'.last| == |s.last| && s' == s.(last := s'.last, log := s'.log)
    decreases |s.last| - i
  {
    if i == |s.last| then s
    else FlushFrom(if s.last[i].thr then Changed(s, i, now) else s, i + 1, now)
  }

  predicate AnyThrottled(s: Op, i: nat)
    requires i <= |s.last|
  {
    exists k :: i <= k < |s.last| && s.last[k].thr
  }

  /** `hrtimer_forward`: the first expiry after `now` on the timer's grid. */
  function Forward(expiry: nat, now: nat, period: nat): (e: nat)
    requires period > 0
    ensures now < e && (now < expiry ==> e == expiry) && (now >= expiry ==> e <= now + period)
    ensures e >= expiry && (e - expiry) % period == 0
    ensures now == expiry ==> e == expiry + period
  {
    if now < expiry then expiry
    else
      var k := (now - expiry) / period;
      assert k * period + (now - expiry) % period == now - expiry;
      DivModUnique((k + 1) * period, period, k + 1, 0);
      expiry + (k + 1) * period
  }

  /** `bcm_rx_thr_handler` */
  function Fire(s: Op, now: nat): (s': Op)
    requires s.Valid() && s.timer.Some? && s.cfg.ival2 > 0
    ensures s'.Valid()
  {
    var s1 := s.(flush := true);
    if AnyThrottled(s, s.cfg.First) then s1.(timer := Some(Forward(s.timer.value, now, s.cfg.Period)))
    else s1.(timer := None, lastmsg := 0)
  }

  /** `bcm_rx_thr_tsklet` */
  function Flush(s: Op, now: nat): (s': Op)
    requires s.Valid()
    ensures s'.Valid()
  {
    FlushFrom(s.(flush := false), s.cfg.First, now)
  }

  // ----- no lost update -----

  /** What an element holds agrees with a frame on everything that counts as a change. */
  predicate Agrees(cfg: Config, i: nat, e: Elem, f: Frame) {
    if cfg.filterId then e.data == f.data && e.dlc == f.dlc
    else
      && i < |cfg.frames| && cfg.frames[i].data * e.data == cfg.frames[i].data * f.data
      && (cfg.checkDlc ==> e.dlc == f.dlc)
  }

  /** The latest notification of an element. */
  function LastNote(log: seq<Note>, i: nat): (n: Option<Note>)
    ensures n.Some? ==> n.value.index == i
  {
    if log == [] then None
    else if log[|log| - 1].index == i then Some(log[|log| - 1])
    else LastNote(log[..|log| - 1], i)
  }

  lemma LastNoteSnoc(log: seq<Note>, n: Note, i: nat)
    ensures LastNote(log + [n], i) == if n.index == i then Some(n) else LastNote(log, i)
  {
    assert (log + [n])[..|log|] == log;
  }

  /**
   An element that has received either was last told to the user with what it holds, or is marked
   throttled; and what it holds agrees with its newest frame.
   */
  predicate Told(s: Op, i: nat)
    requires i < |s.last|
  {
    var e := s.last[i];
    && (i in s.newest ==> i >= s.cfg.First && e.recv && Agrees(s.cfg, i, e, s.newest[i]))
    && (i in s.newest && !e.thr ==>
          var n := LastNote(s.log, i); n.Some? && n.value.data == e.data && n.value.dlc == e.dlc)
    && (e.recv || e.thr ==> i in s.newest)
  }

  /** Throttled elements are waited for: by the timer, or by a flush about to run. */
  ghost predicate NothingLost(s: Op) {
    && s.Valid()
    && (forall i :: 0 <= i < |s.last| ==> Told(s, i))
    && (AnyThrottled(s, 0) ==> s.timer.Some? || s.flush)
  }

  lemma UpdateTold(s: Op, i: nat, rx: Frame, now: nat, k: nat)
    requires s.Valid() && i < |s.last| && s.cfg.First <= i && s.lastmsg <= now && k < |s.last| && Told(s, k)
    ensures Told(Update(s, i, rx, now).(newest := s.newest[i := rx]), k)
  {
    LastNoteSnoc(s.log, Note(now, i, rx.data, rx.dlc), k);
    hide LastNote;
  }

  lemma UpdateKeeps(s: Op, i: nat, rx: Frame, now: nat)
    requires NothingLost(s) && i < |s.last| && s.cfg.First <= i && s.lastmsg <= now
    ensures NothingLost(Update(s, i, rx, now).(newest := s.newest[i := rx]))
  {
    var t := Update(s, i, rx, now).(newest := s.newest[i := rx]);
    hide Told;
    forall k | 0 <= k < |t.last|
      ensures Told(t, k)
    {
      UpdateTold(s, i, rx, now, k);
    }
  }

  lemma ReceiveKeeps(s: Op, rx: Frame, now: nat)
    requires NothingLost(s) && s.lastmsg <= now
    ensures NothingLost(Receive(s, rx, now))
  {
    match Target(s.cfg, rx)
    case None =>
    case Some(i) =>
      assert Told(s, i);
      if s.cfg.filterId || Differs(s, i, rx) {
        UpdateKeeps(s, i, rx, now);
      } else {
        var t := Receive(s, rx, now);
        forall k | 0 <= k < |t.last|
          ensures Told(t, k)
        {
          assert Told(s, k);
        }
      }
  }

  lemma {:induction false} FlushFromKeeps(s: Op, i: nat, now: nat)
    requires s.Valid() && i <= |s.last|
    requires forall k :: 0 <= k < |s.last| ==> Told(s, k)
    ensures var t := FlushFrom(s, i, now);
            && (forall k :: 0 <= k < |t.last| ==> Told(t, k))
            && (forall k :: 0 <= k < i ==> t.last[k].thr == s.last[k].thr)
            && (forall k :: i <= k < |t.last| ==> !t.last[k].thr)
    decreases |s.last| - i
  {
    if i < |s.last| {
      var s1 := if s.last[i].thr then Changed(s, i, now) else s;
      hide Told;
      forall k | 0 <= k < |s1.last|
        ensures Told(s1, k)
      {
        assert Told(s, k);
        ChangedTold(s, i, now, k);
      }
      FlushFromKeeps(s1, i + 1, now);
      var t := FlushFrom(s, i, now);
      assert t == FlushFrom(s1, i + 1, now);
      assert t.last[i].thr == s1.last[i].thr == false;
    }
  }

  lemma ChangedTold(s: Op, i: nat, now: nat, k: nat)
    requires i < |s.last| && k < |s.last| && Told(s, k)
    ensures Told(Changed(s, i, now), k)
  {
    LastNoteSnoc(s.log, Note(now, i, s.last[i].data, s.last[i].dlc), k);
    hide LastNote;
  }

  lemma FlushKeeps(s: Op, now: nat)
    requires NothingLost(s)
    ensures NothingLost(Flush(s, now))
    ensures !AnyThrottled(Flush(s, now), 0)
  {
    var s1 := s.(flush := false);
    forall k | 0 <= k < |s1.last|
      ensures Told(s1, k)
    {
      assert Told(s, k);
    }
    FlushFromKeeps(s1, s.cfg.First, now);
    if s.cfg.First == 1 {
      assert Told(s, 0);
    }
  }

  lemma FireKeeps(s: Op, now: nat)
    requires NothingLost(s) && s.timer.Some? && s.cfg.ival2 > 0
    ensures NothingLost(Fire(s, now))
  {
    var t := Fire(s, now);
    forall k | 0 <= k < |t.last|
      ensures Told(t, k)
    {
      assert Told(s, k);
    }
  }

  datatype Event = Frm(rx: Frame) | TimerFires | TaskletRuns

  /** One atomic step, at any time the monotonic clock allows. */
  predicate Step(s: Op, e: Event, now: nat, s': Op) {
    s.Valid() && s.lastmsg <= now && 0 < now &&
    match e
    case Frm(rx) => s' == Receive(s, rx, now)
    case TimerFires => s.timer.Some? && s.cfg.ival2 > 0 && s' == Fire(s, now)
    case TaskletRuns => s.flush && s' == Flush(s, now)
  }

  predicate Start(s: Op) {
    s.Valid() && (forall i :: 0 <= i < |s.last| ==> s.last[i] == Elem({}, 0, false, false)) &&
    s.lastmsg == 0 && s.timer == None && !s.flush && s.log == [] && s.newest == map[]
  }

  datatype Timed = Timed(event: Event, now: nat)

  ghost predicate IsRun(run: seq<Op>, events: seq<Timed>) {
    |run| == |events| + 1 && Start(run[0]) &&
    forall k :: 0 <= k < |events| ==> Step(run[k], events[k].event, events[k].now, run[k + 1])
  }

  /**
   No update is lost: in every reachable state each element that has received was last notified
   with content agreeing with its newest frame on all masked bits, or is marked throttled while
   the timer runs or its flush is pending.
   */
  lemma NoLostUpdate(run: seq<Op>, events: seq<Timed>)
    requires IsRun(run, events)
    ensures NothingLost(run[|run| - 1])
  {
    hide NothingLost;
    NoLostUpdateAt(run, events, |events|);
  }

  lemma {:induction false} NoLostUpdateAt(run: seq<Op>, events: seq<Timed>, k: nat)
    requires IsRun(run, events) && k <= |events|
    ensures NothingLost(run[k])
  {
    if k == 0 {
    } else {
      NoLostUpdateAt(run, events, k - 1);
      var s, t := run[k - 1], events[k - 1];
      assert Step(s, t.event, t.now, run[k]);
      hide NothingLost;
      match t.event
      case Frm(rx) => ReceiveKeeps(s, rx, t.now);
      case TimerFires => FireKeeps(s, t.now);
      case TaskletRuns => FlushKeeps(s, t.now);
    }
  }

  // ----- what a frame does -----

  /** `a` and `b` have the same bits in the positions of `mask`. */
  predicate SameBits(mask: set<nat>, a: set<nat>, b: set<nat>) {
    forall bit :: bit in mask ==> (bit in a <==> bit in b)
  }

  lemma MaskedEqual(mask: set<nat>, a: set<nat>, b: set<nat>)
    ensures mask * a == mask * b <==> SameBits(mask, a, b)
  {
    if mask * a == mask * b {
      forall bit | bit in mask
        ensures bit in a <==> bit in b
      {
        assert bit in mask * a <==> bit in mask * b;
      }
    }
  }

  /**
   With multiplexing a frame is for the first element that has its bits in the multiplex mask, and for none
   if there is no such element; otherwise it is for the only one.
   */
  lemma WhichElement(cfg: Config, rx: Frame)
    ensures |cfg.frames| <= 1 ==> Target(cfg, rx) == Some(0)
    ensures |cfg.frames| > 1 ==>
      match Target(cfg, rx)
      case Some(i) =>
        && 1 <= i < |cfg.frames| && SameBits(cfg.frames[0].data, rx.data, cfg.frames[i].data)
        && forall k :: 1 <= k < i ==> !SameBits(cfg.frames[0].data, rx.data, cfg.frames[k].data)
      case None => forall k :: 1 <= k < |cfg.frames| ==> !SameBits(cfg.frames[0].data, rx.data, cfg.frames[k].data)
  {
    hide SameBits;
    if |cfg.frames| > 1 { FirstMuxExact(cfg, 1, rx); }
  }

  lemma {:induction false} FirstMuxExact(cfg: Config, from: nat, rx: Frame)
    requires 1 <= from <= |cfg.frames|
    ensures match FirstMux(cfg, from, rx)
      case Some(i) =>
        && from <= i < |cfg.frames| && SameBits(cfg.frames[0].data, rx.data, cfg.frames[i].data)
        && forall k :: from <= k < i ==> !SameBits(cfg.frames[0].data, rx.data, cfg.frames[k].data)
      case None => forall k :: from <= k < |cfg.frames| ==> !SameBits(cfg.frames[0].data, rx.data, cfg.frames[k].data)
    decreases |cfg.frames| - from
  {
    hide SameBits;
    if from < |cfg.frames| {
      MaskedEqual(cfg.frames[0].data, rx.data, cfg.frames[from].data);
      FirstMuxExact(cfg, from + 1, rx);
    }
  }

  /** Whether a frame is a change for its element: always without a content filter, else as compared with it. */
  predicate IsChange(s: Op, i: nat, rx: Frame)
    requires s.Valid() && i < |s.last|
  {
    || s.cfg.frames == [] || !s.last[i].recv
    || !SameBits(s.cfg.frames[i].data, rx.data, s.last[i].data)
    || (s.cfg.checkDlc && rx.dlc != s.last[i].dlc)
  }

  /** Whether notifications are held back now: throttling is on, and a timer runs or the last one is recent. */
  predicate HeldBack(s: Op, now: nat) {
    s.cfg.ival2 > 0 && (s.timer.Some? || (s.lastmsg != 0 && now < s.lastmsg + s.cfg.Period))
  }

  /**
   A frame that is no change leaves everything as it was. One that is replaces what its element holds and
   either is told at once, or is held back with the timer running until the end of the interval.
   */
  lemma ReceiveExact(s: Op, rx: Frame, now: nat)
    requires s.Valid() && s.lastmsg <= now
    ensures var t := Receive(s, rx, now);
      match Target(s.cfg, rx)
      case None => t == s
      case Some(i) =>
        && t.newest == s.newest[i := rx]
        && if !IsChange(s, i, rx) then t == s.(newest := t.newest)
           else
             && |t.last| == |s.last| && (forall k :: 0 <= k < |s.last| && k != i ==> t.last[k] == s.last[k])
             && t.last[i] == Elem(rx.data, rx.dlc, true, HeldBack(s, now)) && t.flush == s.flush
             && if HeldBack(s, now) then
                  && t.log == s.log && t.lastmsg == s.lastmsg
                  && t.timer == Some(if s.timer.Some? then s.timer.value else s.lastmsg + s.cfg.Period)
                else
                  && t.log == s.log + [Note(now, i, rx.data, rx.dlc)] && t.timer == s.timer
                  && t.lastmsg == if s.cfg.ival2 > 0 then now else s.lastmsg
  {
    hide SameBits;
    match Target(s.cfg, rx)
    case None =>
    case Some(i) =>
      MicrosecondTest(now - s.lastmsg, s.cfg.ival2);
      if s.cfg.frames != [] { MaskedEqual(s.cfg.frames[i].data, rx.data, s.last[i].data); }
  }

  // ----- without throttling -----

  /** Every element was last told with what agrees with its newest frame, and nothing is waited for. */
  ghost predicate ToldAtOnce(s: Op) {
    && s.Valid() && s.timer == None && !s.flush
    && forall i :: 0 <= i < |s.last| ==>
         && !s.last[i].thr && (i in s.newest ==> s.last[i].recv)
         && (i in s.newest ==>
               var n := LastNote(s.log, i);
               n.Some? && Agrees(s.cfg, i, Elem(n.value.data, n.value.dlc, true, false), s.newest[i]))
  }

  /** With throttling off, each change is told at once, in every run. */
  lemma {:induction false} UnthrottledAtOnce(run: seq<Op>, events: seq<Timed>, k: nat)
    requires IsRun(run, events) && k <= |events| && run[0].cfg.ival2 == 0
    ensures ToldAtOnce(run[k]) && run[k].cfg == run[0].cfg
  {
    hide Agrees, Receive, LastNote;
    if k == 0 {
    } else {
      UnthrottledAtOnce(run, events, k - 1);
      NoLostUpdateAt(run, events, k);
      assert Step(run[k - 1], events[k - 1].event, events[k - 1].now, run[k]);
      match events[k - 1].event
      case Frm(rx) => UnthrottledStep(run[k - 1], rx, events[k - 1].now);
    }
  }

  lemma UnthrottledStep(s: Op, rx: Frame, now: nat)
    requires ToldAtOnce(s) && s.cfg.ival2 == 0 && s.lastmsg <= now && NothingLost(Receive(s, rx, now))
    ensures ToldAtOnce(Receive(s, rx, now)) && Receive(s, rx, now).cfg == s.cfg
  {
    ReceiveExact(s, rx, now);
    var t := Receive(s, rx, now);
    hide Receive, Target, IsChange, LastNote, Agrees;
    forall i | 0 <= i < |t.last|
      ensures !t.last[i].thr && (i in t.newest ==> t.last[i].recv)
      ensures i in t.newest ==>
        var n := LastNote(t.log, i);
        n.Some? && Agrees(t.cfg, i, Elem(n.value.data, n.value.dlc, true, false), t.newest[i])
    {
      assert Told(t, i);
      if i in t.newest { AgreesData(t.cfg, i, t.last[i], t.newest[i]); }
    }
  }

  lemma AgreesData(cfg: Config, i: nat, e: Elem, f: Frame)
    requires Agrees(cfg, i, e, f)
    ensures Agrees(cfg, i, Elem(e.data, e.dlc, true, false), f)
  {
  }

  // ----- spacing, with ideal timers -----

  /** The timer's handler runs exactly at the expiry and its tasklet at once. */
  predicate IdealStep(s: Op, clock: nat, e: Event, now: nat, s': Op) {
    s.Valid() && s.cfg.ival2 > 0 && s.lastmsg <= now && clock <= now && 0 < now &&
    match e
    case Frm(rx) => (s.timer.Some? ==> now <= s.timer.value) && s' == Receive(s, rx, now)
    case TimerFires => s.timer == Some(now) && s' == Flush(Fire(s, now), now)
    case TaskletRuns => false
  }

  /** Notes come a period apart, or together from one flush, each element once. */
  ghost predicate Spaced(log: seq<Note>, period: nat) {
    forall i, j :: 0 <= i < j < |log| ==>
      || log[i].time + period <= log[j].time
      || (log[i].time == log[j].time && log[i].index < log[j].index)
  }

  ghost predicate AllBefore(log: seq<Note>, period: nat, time: nat) {
    forall k :: 0 <= k < |log| ==> log[k].time + period <= time
  }

  ghost predicate Paced(s: Op, clock: nat) {
    var p := s.cfg.Period;
    && s.Valid() && s.cfg.ival2 > 0 && !s.flush && s.lastmsg <= clock
    && Spaced(s.log, p)
    && (AnyThrottled(s, s.cfg.First) ==> s.timer.Some?)
    && match s.timer
       case Some(x) => clock <= x <= clock + p && AllBefore(s.log, p, x)
       case None => if s.lastmsg == 0 then AllBefore(s.log, p, clock) else AllBefore(s.log, 0, s.lastmsg)
  }

  /** Comparing whole microseconds decides like comparing nanoseconds with the period. */
  lemma MicrosecondTest(d: nat, ival2: nat)
    ensures d / 1000 < ival2 <==> d < 1000 * ival2
  {
  }

  lemma UpdatePaced(s: Op, clock: nat, i: nat, rx: Frame, now: nat)
    requires Paced(s, clock) && clock <= now && 0 < now && s.cfg.First <= i < |s.last|
    requires s.timer.Some? ==> now <= s.timer.value
    ensures Paced(Update(s, i, rx, now), now)
  {
    MicrosecondTest(now - s.lastmsg, s.cfg.ival2);
    var t := Update(s, i, rx, now);
    if t.log == s.log {
      assert t.timer.Some?;
    } else {
      assert AllBefore(s.log, s.cfg.Period, now);
      assert !AnyThrottled(t, t.cfg.First) by {
        assert forall k :: s.cfg.First <= k < |s.last| ==> !s.last[k].thr;
      }
    }
  }

  /** Every note is a period old, or comes from the flush now at element `i`. */
  ghost predicate FlushedUpTo(log: seq<Note>, i: nat, now: nat, period: nat) {
    Spaced(log, period) &&
    forall k :: 0 <= k < |log| ==> log[k].time + period <= now || (log[k].time == now && log[k].index < i)
  }

  lemma FlushedSnoc(log: seq<Note>, n: Note, period: nat)
    requires FlushedUpTo(log, n.index, n.time, period)
    ensures FlushedUpTo(log + [n], n.index + 1, n.time, period)
  {
  }

  lemma {:induction false} FlushFromSpaced(s: Op, i: nat, now: nat, period: nat)
    requires i <= |s.last| && FlushedUpTo(s.log, i, now, period)
    ensures var t := FlushFrom(s, i, now);
            && FlushedUpTo(t.log, |s.last|, now, period)
            && (forall k :: i <= k < |t.last| ==> !t.last[k].thr)
            && (forall k :: 0 <= k < i ==> t.last[k] == s.last[k])
    decreases |s.last| - i
  {
    if i < |s.last| {
      if s.last[i].thr {
        FlushedSnoc(s.log, Note(now, i, s.last[i].data, s.last[i].dlc), period);
      }
      hide FlushedUpTo;
      FlushFromSpaced(if s.last[i].thr then Changed(s, i, now) else s, i + 1, now, period);
    }
  }

  lemma FirePaced(s: Op, clock: nat, now: nat)
    requires Paced(s, clock) && clock <= now && s.timer == Some(now)
    ensures Paced(Flush(Fire(s, now), now), now)
  {
    var f := Fire(s, now).(flush := false);
    FlushFromSpaced(f, s.cfg.First, now, s.cfg.Period);
    var t := Flush(Fire(s, now), now);
    if f.timer == None {
      FlushNothing(f, s.cfg.First, now);
    }
    assert AllBefore(t.log, 0, now);
  }

  lemma {:induction false} FlushNothing(s: Op, i: nat, now: nat)
    requires i <= |s.last| && !AnyThrottled(s, i)
    ensures FlushFrom(s, i, now) == s
    decreases |s.last| - i
  {
    if i < |s.last| {
      FlushNothing(s, i + 1, now);
    }
  }

  /** The time reached after `k` events. */
  function Clock(events: seq<Timed>, k: nat): nat
    requires k <= |events|
  {
    if k == 0 then 0 else events[k - 1].now
  }

  ghost predicate IsIdealRun(run: seq<Op>, events: seq<Timed>) {
    |run| == |events| + 1 && Start(run[0]) && run[0].cfg.ival2 > 0 &&
    forall k :: 0 <= k < |events| ==>
      IdealStep(run[k], Clock(events, k), events[k].event, events[k].now, run[k + 1])
  }

  lemma IdealStepPaced(s: Op, clock: nat, e: Event, now: nat, s': Op)
    requires Paced(s, clock) && IdealStep(s, clock, e, now, s')
    ensures Paced(s', now)
  {
    match e
    case Frm(rx) => ReceivePaced(s, clock, rx, now);
    case TimerFires => FirePaced(s, clock, now);
  }

  lemma ReceivePaced(s: Op, clock: nat, rx: Frame, now: nat)
    requires Paced(s, clock) && clock <= now && 0 < now && (s.timer.Some? ==> now <= s.timer.value)
    ensures Paced(Receive(s, rx, now), now)
  {
    hide Target, Differs, Spaced;
    match Target(s.cfg, rx)
    case None =>
    case Some(i) =>
      if s.cfg.filterId || Differs(s, i, rx) {
        UpdatePaced(s, clock, i, rx, now);
        hide Update;
      }
  }

  lemma {:induction false} IdealRunPaced(run: seq<Op>, events: seq<Timed>, k: nat)
    requires IsIdealRun(run, events) && k <= |events|
    ensures Paced(run[k], Clock(events, k))
  {
    hide IdealStep;
    if k == 0 {
      hide Spaced, AllBefore;
      StartPaced(run[0]);
    } else {
      hide Paced;
      IdealRunPaced(run, events, k - 1);
      IdealStepPaced(run[k - 1], Clock(events, k - 1), events[k - 1].event, events[k - 1].now, run[k]);
    }
  }

  lemma StartPaced(s: Op)
    requires Start(s) && s.cfg.ival2 > 0
    ensures Paced(s, 0)
  {
  }

  /** Two notifications of one element are at least `ival2` apart, in every run. */
  lemma NotificationsSpaced(run: seq<Op>, events: seq<Timed>, i: nat, j: nat)
    requires IsIdealRun(run, events)
    requires var log := run[|run| - 1].log; i < j < |log| && log[i].index == log[j].index
    ensures var log := run[|run| - 1].log; log[i].time + 1000 * run[|run| - 1].cfg.ival2 <= log[j].time
  {
    IdealRunPaced(run, events, |events|);
  }

  // ----- throttled elements are told in time -----

  predicate Noted(log: seq<Note>, i: nat, time: nat) {
    exists n :: 0 <= n < |log| && log[n].index == i && log[n].time == time
  }

  /** Element `i` is to be told at time `e`, or has been. */
  ghost predicate ToldAt(s: Op, i: nat, e: nat) {
    i < |s.last| && ((s.last[i].thr && s.timer == Some(e)) || Noted(s.log, i, e))
  }

  lemma {:induction false} FlushTells(s: Op, from: nat, now: nat, i: nat)
    requires from <= i < |s.last| && s.last[i].thr
    ensures Noted(FlushFrom(s, from, now).log, i, now)
    decreases i - from
  {
    var s1 := if s.last[from].thr then Changed(s, from, now) else s;
    if from < i {
      FlushTells(s1, from + 1, now, i);
    } else {
      var n := |s.log|;
      assert s1.log[n] == Note(now, i, s.last[i].data, s.last[i].dlc);
      FlushGrows(s1, i + 1, now);
      assert FlushFrom(s, i, now).log[n] == s1.log[n];
    }
  }

  lemma {:induction false} FlushGrows(s: Op, from: nat, now: nat)
    requires from <= |s.last|
    ensures s.log <= FlushFrom(s, from, now).log
    decreases |s.last| - from
  {
    if from < |s.last| {
      FlushGrows(if s.last[from].thr then Changed(s, from, now) else s, from + 1, now);
    }
  }

  lemma NotedStays(log: seq<Note>, log': seq<Note>, i: nat, e: nat)
    requires Noted(log, i, e) && log <= log'
    ensures Noted(log', i, e)
  {
    var n :| 0 <= n < |log| && log[n].index == i && log[n].time == e;
    assert log'[n] == log[n];
  }

  lemma StepTells(s: Op, clock: nat, ev: Event, now: nat, s': Op, i: nat, e: nat)
    requires IdealStep(s, clock, ev, now, s') && s.cfg.First <= i && ToldAt(s, i, e)
    ensures ToldAt(s', i, e) && s'.cfg == s.cfg
  {
    match ev
    case Frm(rx) =>
      hide Target, Differs;
      if Noted(s.log, i, e) { NotedStays(s.log, s'.log, i, e); }
    case TimerFires =>
      var f := Fire(s, now).(flush := false);
      FlushGrows(f, s.cfg.First, now);
      if Noted(s.log, i, e) {
        NotedStays(s.log, s'.log, i, e);
      } else {
        FlushTells(f, s.cfg.First, now, i);
      }
  }

  lemma {:induction false} RunTells(run: seq<Op>, events: seq<Timed>, k: nat, l: nat, i: nat, e: nat)
    requires IsIdealRun(run, events) && k <= l <= |events|
    requires run[k].cfg.First <= i && ToldAt(run[k], i, e)
    ensures ToldAt(run[l], i, e) && run[l].cfg == run[k].cfg
  {
    hide IdealStep, ToldAt;
    if k < l {
      RunTells(run, events, k, l - 1, i, e);
      StepTells(run[l - 1], Clock(events, l - 1), events[l - 1].event, events[l - 1].now, run[l], i, e);
    }
  }

  /**
   An element that is throttled at any point of a run is told within `ival2`: there is a time no later
   than that, for which its notification is in the log once the clock has passed it.
   */
  lemma ThrottledSoonTold(run: seq<Op>, events: seq<Timed>, k: nat, i: nat)
    requires IsIdealRun(run, events) && k <= |events|
    requires run[k].cfg.First <= i < |run[k].last| && run[k].last[i].thr
    ensures run[k].timer.Some?
    ensures var e, end := run[k].timer.value, Clock(events, |events|);
            && Clock(events, k) <= e <= Clock(events, k) + 1000 * run[k].cfg.ival2
            && (e < end ==> Noted(run[|events|].log, i, e))
  {
    IdealRunPaced(run, events, k);
    IdealRunPaced(run, events, |events|);
    hide IdealStep, Noted, Spaced, AllBefore, IsIdealRun;
    RunTells(run, events, k, |events|, i, run[k].timer.value);
  }

  // ----- what a flush sends -----

  /** A flush sends the throttled elements, each once, in order, with what they hold, and no others. */
  lemma {:induction false} FlushExact(s: Op, from: nat, now: nat)
    requires from <= |s.last|
    ensures var t := FlushFrom(s, from, now);
      && s.log <= t.log && |t.log| == |s.log| + Throttled(s, from)
      && (forall n :: |s.log| <= n < |t.log| ==>
            var i := t.log[n].index;
            from <= i < |s.last| && s.last[i].thr && t.log[n] == Note(now, i, s.last[i].data, s.last[i].dlc))
      && (forall m, n :: |s.log| <= m < n < |t.log| ==> t.log[m].index < t.log[n].index)
    decreases |s.last| - from
  {
    if from < |s.last| {
      var s1 := if s.last[from].thr then Changed(s, from, now) else s;
      FlushExact(s1, from + 1, now);
      SameThrottled(s, s1, from + 1);
    }
  }

  function Throttled(s: Op, from: nat): (n: nat)
    requires from <= |s.last|
    decreases |s.last| - from
  {
    if from == |s.last| then 0 else (if s.last[from].thr then 1 else 0) + Throttled(s, from + 1)
  }

  lemma {:induction false} SameThrottled(s: Op, s1: Op, from: nat)
    requires from <= |s.last| == |s1.last| && forall k :: from <= k < |s.last| ==> s1.last[k] == s.last[k]
    ensures Throttled(s1, from) == Throttled(s, from)
    decreases |s.last| - from
  {
    if from < |s.last| { SameThrottled(s, s1, from + 1); }
  }

  // ----- nothing is held back without a reason -----

  ghost predicate NotedAt(log: seq<Note>, time: nat) { exists i: nat :: Noted(log, i, time) }

  /** A running timer ends, and a remembered time begins, an interval that begins with a notification. */
  ghost predicate Recent(s: Op) {
    match s.timer
    case Some(x) => x >= s.cfg.Period && NotedAt(s.log, x - s.cfg.Period)
    case None => s.lastmsg == 0 || NotedAt(s.log, s.lastmsg)
  }

  lemma NotedAtStays(log: seq<Note>, log': seq<Note>, time: nat)
    requires log <= log' && NotedAt(log, time)
    ensures NotedAt(log', time)
  {
    hide Noted;
    var i: nat :| Noted(log, i, time);
    NotedStays(log, log', i, time);
  }

  lemma RecentStep(s: Op, clock: nat, e: Event, now: nat, s': Op)
    requires Recent(s) && IdealStep(s, clock, e, now, s')
    ensures Recent(s')
  {
    match e
    case Frm(rx) =>
      ReceiveExact(s, rx, now);
      hide Receive, Target, IsChange, NotedAt;
      if s.timer.Some? { NotedAtStays(s.log, s'.log, s.timer.value - s.cfg.Period); }
      else if s.lastmsg != 0 { NotedAtStays(s.log, s'.log, s.lastmsg); }
      if s'.log != s.log { LastNoted(s'.log); }
    case TimerFires =>
      var f := Fire(s, now).(flush := false);
      if AnyThrottled(s, s.cfg.First) {
        var i :| s.cfg.First <= i < |s.last| && s.last[i].thr;
        FlushTells(f, s.cfg.First, now, i);
        assert Noted(s'.log, i, now);
      }
  }

  lemma LastNoted(log: seq<Note>)
    requires log != []
    ensures NotedAt(log, log[|log| - 1].time)
  {
    assert Noted(log, log[|log| - 1].index, log[|log| - 1].time);
  }

  lemma {:induction false} RecentInRuns(run: seq<Op>, events: seq<Timed>, k: nat)
    requires IsIdealRun(run, events) && k <= |events|
    ensures Recent(run[k])
  {
    hide IdealStep, NotedAt;
    if k == 0 {
    } else {
      hide Recent;
      RecentInRuns(run, events, k - 1);
      RecentStep(run[k - 1], Clock(events, k - 1), events[k - 1].event, events[k - 1].now, run[k]);
    }
  }

  /** A change is held back only if there was a notification no longer than `ival2` ago. */
  lemma HeldForAReason(run: seq<Op>, events: seq<Timed>, k: nat, now: nat)
    requires IsIdealRun(run, events) && k <= |events| && HeldBack(run[k], now)
    requires run[k].timer.Some? ==> now <= run[k].timer.value
    ensures exists time: nat :: NotedAt(run[k].log, time) && now <= time + 1000 * run[k].cfg.ival2
  {
    RecentInRuns(run, events, k);
    hide NotedAt;
    var s := run[k];
    var time := if s.timer.Some? then s.timer.value - s.cfg.Period else s.lastmsg;
    assert NotedAt(s.log, time);
  }

  // ----- the code -----

  class RxOp {
    const cfg: Config
    var last: seq<Elem>
    var lastmsg: nat            // 0 means no throttle period is running
    var timer: Option<nat>      // expiry of the throttle timer while it is active
    var flush: bool             // its tasklet is scheduled
    ghost var log: seq<Note>
    ghost var newest: map<nat, Frame>

    ghost function View(): Op
      reads this
    {
      Op(cfg, last, lastmsg, timer, flush, log, newest)
    }

    constructor (cfg: Config)
      requires cfg.Valid()
      ensures this.cfg == cfg && Start(View())
    {
      this.cfg := cfg;
      last := seq(if |cfg.frames| > 1 then |cfg.frames| else 1, _ => Elem({}, 0, false, false));
      lastmsg, timer, flush, log, newest := 0, None, false, [], map[];
    }

    method SendChanged(i: nat, now: nat)
      requires View().Valid() && i < |last|
      modifies this`last, this`log
      ensures View() == Changed(old(View()), i, now)
    {
      log := log + [Note(now, i, last[i].data, last[i].dlc)];
      last := last[i := last[i].(thr := false)];
    }

    method UpdateAndSend(i: nat, rx: Frame, now: nat)
      requires View().Valid() && i < |last| && lastmsg <= now
      modifies this`last, this`log, this`timer, this`lastmsg
      ensures View() == Update(old(View()), i, rx, now)
    {
      last := last[i := Elem(rx.data, rx.dlc, true, true)];
      if cfg.ival2 == 0 {
        SendChanged(i, now);
        return;
      }
      if timer.Some? { return; }
      if lastmsg != 0 {
        if (now - lastmsg) / 1000 < cfg.ival2 {
          timer := Some(lastmsg + cfg.Period);
          return;
        }
      }
      SendChanged(i, now);
      lastmsg := now;
    }

    method CmpToIndex(i: nat, rx: Frame, now: nat)
      requires View().Valid() && i < |last| && i < |cfg.frames| && lastmsg <= now
      modifies this`last, this`log, this`timer, this`lastmsg
      ensures View() == if old(Differs(View(), i, rx)) then Update(old(View()), i, rx, now) else old(View())
    {
      if !last[i].recv {
        UpdateAndSend(i, rx, now);
        return;
      }
      if cfg.frames[i].data * rx.data != cfg.frames[i].data * last[i].data {
        UpdateAndSend(i, rx, now);
        return;
      }
      if cfg.checkDlc {
        if rx.dlc != last[i].dlc {
          UpdateAndSend(i, rx, now);
          return;
        }
      }
    }

    method RxHandler(rx: Frame, now: nat)
      requires View().Valid() && lastmsg <= now
      modifies this
      ensures View() == Receive(old(View()), rx, now)
    {
      ghost var target := Target(cfg, rx);
      if cfg.filterId {
        UpdateAndSend(0, rx, now);
      } else if |cfg.frames| == 1 {
        CmpToIndex(0, rx, now);
      } else {
        var i := 1;
        while i < |cfg.frames| && !Muxed(cfg, i, rx)
          invariant 1 <= i <= |cfg.frames| && FirstMux(cfg, i, rx) == target
        {
          i := i + 1;
        }
        if i < |cfg.frames| { CmpToIndex(i, rx, now); }
      }
      if target.Some? { newest := newest[target.value := rx]; }
    }

    /** Counts the throttled elements and, with `update`, sends them. */
    method ThrFlush(update: bool, now: nat) returns (updated: nat)
      requires View().Valid()
      modifies this`last, this`log
      ensures updated > 0 <==> AnyThrottled(old(View()), cfg.First)
      ensures View() == if update then FlushFrom(old(View()), cfg.First, now) else old(View())
    {
      updated := 0;
      ghost var s := View();
      var i := cfg.First;
      while i < |last|
        invariant cfg.First <= i <= |last| == |s.last| && View().Valid()
        invariant forall k :: i <= k < |last| ==> last[k] == s.last[k]
        invariant updated > 0 <==> exists k :: cfg.First <= k < i && s.last[k].thr
        invariant if update then FlushFrom(View(), i, now) == FlushFrom(s, cfg.First, now) else View() == s
        decreases |s.last| - i
      {
        if last[i].thr {
          if update { SendChanged(i, now); }
          updated := updated + 1;
        }
        i := i + 1;
      }
    }

    /** The throttle timer's handler. */
    method ThrHandler(now: nat)
      requires View().Valid() && timer.Some? && cfg.ival2 > 0
      modifies this
      ensures View() == Fire(old(View()), now)
    {
      flush := true;
      var n := ThrFlush(false, now);
      if n > 0 {
        timer := Some(Forward(timer.value, now, cfg.Period));
      } else {
        lastmsg, timer := 0, None;
      }
    }

    /** The throttle tasklet. */
    method ThrTasklet(now: nat)
      requires View().Valid()
      modifies this
      ensures View() == Flush(old(View()), now)
    {
      flush := false;
      var _ := ThrFlush(true, now);
    }
  }
}
