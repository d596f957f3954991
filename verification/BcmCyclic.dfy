/**
 Cyclic transmission of the CAN broadcast manager: a transmit operation sends `count` frames
 `ival1` apart, then goes on `ival2` apart or stops, cycling through its frames. `Tx` is the
 operation as a value with a log of what went out; the class `TxOp` is the code.
 */
module BcmCyclic {
  import opened Arith
  import opened Common

  const MAX_NFRAMES := 256

  datatype CanFrame = CanFrame(canId: nat, dlc: nat, data: seq<nat>)

  datatype Head = Head(canId: nat, nframes: nat, count: nat, ival1: nat, ival2: nat, setTimer: bool,
                       startTimer: bool, announce: bool, countEvt: bool, resetIdx: bool, cpCanId: bool)

  datatype Event = Sent(time: nat, index: nat, frame: CanFrame) | Expired(time: nat)

  datatype Tx = Tx(frames: seq<CanFrame>, nframes: nat, currframe: nat, count: nat, ival1: nat, ival2: nat,
                   countEvt: bool, timer: Option<nat>, log: seq<Event>)
  {
    /** The next frame is always one of the current ones; shrinking keeps the allocated space. */
    predicate Valid() { currframe < nframes <= |frames| }
  }

  // ----- the steps -----

  function Next(i: nat, n: nat): nat { if i + 1 >= n then 0 else i + 1 }

  /** `bcm_can_tx`, with a device and memory for the frame. */
  function CanTx(s: Tx, now: nat): (s': Tx)
    requires s.Valid()
    ensures s'.Valid()
  {
    s.(currframe := Next(s.currframe, s.nframes), log := s.log + [Sent(now, s.currframe, s.frames[s.currframe])])
  }

  /** `bcm_tx_start_timer` */
  function StartTimer(s: Tx, now: nat): Tx {
    if s.ival1 > 0 && s.count > 0 then s.(timer := Some(now + s.ival1))
    else if s.ival2 > 0 then s.(timer := Some(now + s.ival2))
    else s
  }

  /** `bcm_tx_timeout_tsklet`, run by the timer, which does not restart itself. */
  function Timeout(s: Tx, now: nat): (s': Tx)
    requires s.Valid()
    ensures s'.Valid()
  {
    var s1 := s.(timer := None);
    var s2 :=
      if s1.ival1 > 0 && s1.count > 0 then
        var s3 := s1.(count := s1.count - 1);
        CanTx(if s3.count == 0 && s3.countEvt then s3.(log := s3.log + [Expired(now)]) else s3, now)
      else if s1.ival2 > 0 then CanTx(s1, now)
      else s1;
    StartTimer(s2, now)
  }

  function Copied(h: Head, f: CanFrame): CanFrame {
    if h.cpCanId then f.(canId := h.canId) else f
  }

  /** The first `n` frames replaced. */
  function CopyIn(frames: seq<CanFrame>, h: Head, data: seq<CanFrame>, n: nat): (fs: seq<CanFrame>)
    requires n <= |data| <= |frames|
    ensures |fs| == |frames|
  {
    if n == 0 then frames else CopyIn(frames, h, data, n - 1)[n - 1 := Copied(h, data[n - 1])]
  }

  /** The first frame from `i` on with a bad length, if any. */
  function FirstBad(data: seq<CanFrame>, i: nat): (bad: nat)
    requires i <= |data|
    ensures i <= bad <= |data| && (bad < |data| ==> data[bad].dlc > 8)
    ensures forall k :: i <= k < bad ==> data[k].dlc <= 8
    decreases |data| - i
  {
    if i < |data| && data[i].dlc <= 8 then FirstBad(data, i + 1) else i
  }

  /** TX_SETUP once the new frame contents are in place: frame count, flags and timer values. */
  function SetValues(s: Tx, h: Head): (s': Tx)
    requires 1 <= h.nframes <= |s.frames| && (s.nframes == h.nframes ==> s.Valid())
    ensures s'.Valid() && s' == s'.(frames := s.frames, log := s.log, nframes := h.nframes)
  {
    var restart := s.nframes != h.nframes || h.resetIdx;
    var s1 := s.(nframes := h.nframes, currframe := if restart then 0 else s.currframe, countEvt := h.countEvt);
    if h.setTimer then
      s1.(count := h.count, ival1 := h.ival1, ival2 := h.ival2,
          timer := if h.ival1 == 0 && h.ival2 == 0 then None else s1.timer)
    else s1
  }

  /** Then the first frame is sent, if asked for, and the timer started. */
  function Announce(s: Tx, h: Head, now: nat): (s': Tx)
    requires s.Valid()
    ensures s'.Valid()
  {
    var s1 := if h.startTimer then s.(timer := None) else s;
    var s2 := if h.startTimer || h.announce then CanTx(s1, now) else s1;
    var s3 := if (h.startTimer || h.announce) && s2.count > 0 then s2.(count := s2.count - 1) else s2;
    if h.startTimer then StartTimer(s3, now) else s3
  }

  function Configure(s: Tx, h: Head, now: nat): (s': Tx)
    requires 1 <= h.nframes <= |s.frames| && (s.nframes == h.nframes ==> s.Valid())
    ensures s'.Valid()
  {
    Announce(SetValues(s, h), h, now)
  }

  /** Which frames TX_SETUP replaces, and by what. */
  lemma {:induction false} CopiedAt(frames: seq<CanFrame>, h: Head, data: seq<CanFrame>, n: nat, i: nat)
    requires n <= |data| <= |frames| && i < |frames|
    ensures CopyIn(frames, h, data, n)[i]
            == if i >= n then frames[i] else if h.cpCanId then data[i].(canId := h.canId) else data[i]
  {
    if n > 0 {
      CopiedAt(frames, h, data, n - 1, i);
    }
  }

  // ----- the schedule -----

  /** How many expiries of the timer belong to the first phase. */
  function Quick(s: Tx): nat { if s.ival1 > 0 then s.count else 0 }

  /** When a timer set to `t1` expires for the k-th time, counting from 0. */
  function Due(s: Tx, t1: nat, k: nat): nat {
    if k == 0 then t1 else Due(s, t1, k - 1) + if k < Quick(s) then s.ival1 else s.ival2
  }

  /** The first phase's expiries come `ival1` apart, the later ones `ival2` apart. */
  lemma {:induction false} DueClosedForm(s: Tx, t1: nat, k: nat)
    ensures Due(s, t1, k) == var q := if Quick(s) == 0 then 1 else Quick(s);
                             if k < q then t1 + k * s.ival1 else t1 + (q - 1) * s.ival1 + (k - (q - 1)) * s.ival2
  {
    if k > 0 {
      DueClosedForm(s, t1, k - 1);
      if k < Quick(s) {
        assert k * s.ival1 == (k - 1) * s.ival1 + s.ival1;
      } else {
        var q := if Quick(s) == 0 then 1 else Quick(s);
        assert (k - (q - 1)) * s.ival2 == (k - 1 - (q - 1)) * s.ival2 + s.ival2;
      }
    }
  }

  /** Which of the `n` frames is the k-th to go out. */
  function Cycle(start: nat, n: nat, k: nat): (i: nat)
    requires start < n
    ensures i < n
  {
    if k == 0 then start else Next(Cycle(start, n, k - 1), n)
  }

  lemma NextIndex(x: nat, n: nat)
    requires n > 0
    ensures (x + 1) % n == Next(x % n, n)
  {
    var q, r := x / n, x % n;
    assert x == q * n + r;
    if r + 1 < n {
      DivModUnique(x + 1, n, q, r + 1);
    } else {
      assert x + 1 == (q + 1) * n + 0;
      DivModUnique(x + 1, n, q + 1, 0);
    }
  }

  function Turn(start: nat, n: nat, k: nat): (i: nat)
    requires n > 0
    ensures i < n
  {
    (start + k) % n
  }

  /** The frames take turns. */
  lemma {:induction false} CycleIsRoundRobin(start: nat, n: nat, k: nat)
    requires start < n
    ensures Cycle(start, n, k) == Turn(start, n, k)
  {
    hide Next;
    if k == 0 {
      DivModUnique(start, n, 0, start);
    } else {
      CycleIsRoundRobin(start, n, k - 1);
      NextIndex(start + k - 1, n);
    }
  }

  /** What `k` expiries bring: a frame each, the last of the first phase announced if that is asked for. */
  function Schedule(s: Tx, t1: nat, k: nat): (log: seq<Event>)
    requires s.Valid()
  {
    if k == 0 then []
    else
      var time, i := Due(s, t1, k - 1), Cycle(s.currframe, s.nframes, k - 1);
      Schedule(s, t1, k - 1) + (if k == Quick(s) && s.countEvt then [Expired(time)] else [])
      + [Sent(time, i, s.frames[i])]
  }

  /** The operation after `k` expiries; without a second interval the timer stops with the first phase. */
  function AtExpiry(s: Tx, t1: nat, k: nat): Tx
    requires s.Valid()
  {
    s.(log := s.log + Schedule(s, t1, k), currframe := Cycle(s.currframe, s.nframes, k),
       count := if s.ival1 == 0 then s.count else if k < s.count then s.count - k else 0,
       timer := if k < Quick(s) || s.ival2 > 0 then Some(Due(s, t1, k)) else None)
  }

  /** Each expiry of the timer moves the operation one frame along its schedule. */
  lemma TimeoutAdvances(s: Tx, t1: nat, k: nat)
    requires s.Valid() && (k < Quick(s) || s.ival2 > 0)
    ensures AtExpiry(s, t1, k).Valid()
    ensures Timeout(AtExpiry(s, t1, k), Due(s, t1, k)) == AtExpiry(s, t1, k + 1)
  {
    hide Next;
    var sched := Schedule(s, t1, k);
    var time, i := Due(s, t1, k), Cycle(s.currframe, s.nframes, k);
    var exp := if k + 1 == Quick(s) && s.countEvt then [Expired(time)] else [];
    var sent := [Sent(time, i, s.frames[i])];
    assert s.log + (sched + exp + sent) == s.log + sched + exp + sent;
  }

  /** The operation after `k` expiries of its timer, each handled on time. */
  function AfterTimeouts(s: Tx, k: nat): (s': Tx)
    requires s.Valid()
    ensures s'.Valid()
  {
    if k == 0 then s
    else
      var t := AfterTimeouts(s, k - 1);
      if t.timer.Some? then Timeout(t, t.timer.value) else t
  }

  /** How many of `k` expiries happen. */
  function Reached(s: Tx, k: nat): nat { if s.ival2 > 0 || k <= Quick(s) then k else Quick(s) }

  /** A running timer drives the operation through its schedule, as far as that goes. */
  lemma {:induction false} TimerFollows(s: Tx, t1: nat, k: nat)
    requires s.Valid() && s.timer == Some(t1) && (Quick(s) > 0 || s.ival2 > 0)
    ensures AfterTimeouts(s, k) == AtExpiry(s, t1, Reached(s, k))
  {
    hide Timeout, Due, Cycle, Schedule;
    if k == 0 {
      NothingYet(s, t1);
    } else {
      TimerFollows(s, t1, k - 1);
      if s.ival2 > 0 || k <= Quick(s) {
        TimeoutAdvances(s, t1, k - 1);
      }
    }
  }

  lemma NothingYet(s: Tx, t1: nat)
    requires s.Valid() && s.timer == Some(t1) && (Quick(s) > 0 || s.ival2 > 0)
    ensures AtExpiry(s, t1, 0) == s
  {
    assert s.log + [] == s.log;
  }

  /** One that has nothing to send just stops, and no timer brings nothing. */
  lemma {:induction false} TimerIdle(s: Tx, k: nat)
    requires s.Valid() && (s.timer == None || (Quick(s) == 0 && s.ival2 == 0))
    ensures AfterTimeouts(s, k) == if k == 0 then s else s.(timer := None)
  {
    if k > 0 {
      TimerIdle(s, k - 1);
    }
  }

  // ----- what a setup brings about -----

  function Sends(log: seq<Event>): (sent: seq<Event>) {
    if log == [] then []
    else Sends(log[..|log| - 1]) + if log[|log| - 1].Sent? then [log[|log| - 1]] else []
  }

  function Expiries(log: seq<Event>): (expired: seq<Event>) {
    if log == [] then []
    else Expiries(log[..|log| - 1]) + if log[|log| - 1].Expired? then [log[|log| - 1]] else []
  }

  lemma KindSnoc(log: seq<Event>, e: Event)
    ensures Sends(log + [e]) == Sends(log) + if e.Sent? then [e] else []
    ensures Expiries(log + [e]) == Expiries(log) + if e.Expired? then [e] else []
  {
    assert (log + [e])[..|log|] == log;
  }

  lemma ScheduleNext(s: Tx, t1: nat, k: nat)
    requires s.Valid() && k > 0
    ensures var time, i := Due(s, t1, k - 1), Cycle(s.currframe, s.nframes, k - 1);
            var was, now := Schedule(s, t1, k - 1), Schedule(s, t1, k);
            && Sends(now) == Sends(was) + [Sent(time, i, s.frames[i])]
            && Expiries(now) == if k == Quick(s) && s.countEvt then Expiries(was) + [Expired(time)] else Expiries(was)
  {
    hide Cycle, Due, Sends, Expiries;
    var log := Schedule(s, t1, k - 1);
    var time, i := Due(s, t1, k - 1), Cycle(s.currframe, s.nframes, k - 1);
    var sent := Sent(time, i, s.frames[i]);
    if k == Quick(s) && s.countEvt {
      KindSnoc(log, Expired(time));
      KindSnoc(log + [Expired(time)], sent);
    } else {
      KindSnoc(log, sent);
      assert log + [] == log;
    }
  }

  /** The frames that go out, one by one, and the notification that the first phase is over. */
  lemma {:induction false} ScheduleExact(s: Tx, t1: nat, k: nat)
    requires s.Valid()
    ensures var sent := Sends(Schedule(s, t1, k));
            && |sent| == k
            && forall j :: 0 <= j < k ==>
                 var i := Cycle(s.currframe, s.nframes, j); sent[j] == Sent(Due(s, t1, j), i, s.frames[i])
    ensures Expiries(Schedule(s, t1, k))
         == if s.countEvt && 1 <= Quick(s) <= k then [Expired(Due(s, t1, Quick(s) - 1))] else []
  {
    hide Cycle, Due;
    if k > 0 {
      hide Schedule, Sends, Expiries;
      ScheduleExact(s, t1, k - 1);
      ScheduleNext(s, t1, k);
    }
  }

  /** The values in force after a setup. */
  datatype Plan = Plan(count: nat, ival1: nat, ival2: nat, start: nat)
  {
    /** How many frames belong to the first phase. */
    const Quick: nat := if ival1 > 0 then count else 0

    function Later(t0: nat, last: nat, more: nat): nat { t0 + last * ival1 + more * ival2 }

    /** When the j-th frame goes out, counting from 0: those of the first phase `ival1` apart, then `ival2`. */
    function Time(t0: nat, j: nat): nat {
      var last: nat := if Quick == 0 then 0 else Quick - 1;
      if j <= last then t0 + j * ival1 else Later(t0, last, j - last)
    }

    /** How many frames follow the first within `k` expiries. */
    function Follow(k: nat): nat { if ival2 > 0 || k < Quick then k else if Quick == 0 then 0 else Quick - 1 }
  }

  function PlanOf(s: Tx, h: Head): Plan {
    var start := if s.nframes != h.nframes || h.resetIdx then 0 else s.currframe;
    if h.setTimer then Plan(h.count, h.ival1, h.ival2, start) else Plan(s.count, s.ival1, s.ival2, start)
  }

  /** A setup in one go: it sends the first frame if it announces or starts, and only a start sets the timer. */
  lemma SetupExact(s: Tx, h: Head, t0: nat)
    requires 1 <= h.nframes <= |s.frames| && (s.nframes == h.nframes ==> s.Valid())
    ensures var p, s' := PlanOf(s, h), Configure(s, h, t0); var sends := h.startTimer || h.announce;
            && p.start < h.nframes == s'.nframes
            && s' == s'.(frames := s.frames, countEvt := h.countEvt, ival1 := p.ival1, ival2 := p.ival2)
            && s'.log == s.log + (if sends then [Sent(t0, p.start, s.frames[p.start])] else [])
            && s'.currframe == (if sends then Cycle(p.start, h.nframes, 1) else p.start)
            && s'.count == (if sends && p.count > 0 then p.count - 1 else p.count)
            && s'.timer ==
                 if !h.startTimer then if h.setTimer && p.ival1 == p.ival2 == 0 then None else s.timer
                 else if p.Quick >= 2 || p.ival2 > 0 then Some(p.Time(t0, 1)) else None
  {
    var p := PlanOf(s, h);
    assert Cycle(p.start, h.nframes, 1) == Next(Cycle(p.start, h.nframes, 0), h.nframes);
    assert s.log + [] == s.log;
  }

  /** The expiries after a start are when the later frames are planned. */
  lemma PlannedTimes(s: Tx, p: Plan, t0: nat, j: nat)
    requires s.ival1 == p.ival1 && s.ival2 == p.ival2 && s.count == if p.count > 0 then p.count - 1 else 0
    ensures Due(s, p.Time(t0, 1), j) == p.Time(t0, j + 1)
  {
    DueClosedForm(s, p.Time(t0, 1), j);
    hide Due;
    if p.Quick >= 2 {
      assert (1 + j) * p.ival1 == p.ival1 + j * p.ival1;
      assert (p.Quick - 1) * p.ival1 == p.ival1 + (p.Quick - 2) * p.ival1;
    } else {
      assert (1 + j) * p.ival2 == p.ival2 + j * p.ival2;
    }
  }

  lemma {:induction false} KindCons(e: Event, log: seq<Event>)
    ensures Sends([e] + log) == (if e.Sent? then [e] else []) + Sends(log)
    ensures Expiries([e] + log) == (if e.Expired? then [e] else []) + Expiries(log)
  {
    if log == [] {
      KindSnoc([], e);
      assert [] + [e] == [e] + [] == [e];
    } else {
      var n := |log| - 1;
      KindCons(e, log[..n]);
      KindSnoc([e] + log[..n], log[n]);
      assert [e] + log == [e] + log[..n] + [log[n]];
    }
  }

  lemma {:induction false} CycleOn(start: nat, n: nat, j: nat)
    requires start < n
    ensures Cycle(Cycle(start, n, 1), n, j) == Cycle(start, n, j + 1)
  {
    hide Next;
    if j > 0 {
      CycleOn(start, n, j - 1);
    }
  }

  lemma StartedLog(s: Tx, t1: nat, k: nat)
    requires s.Valid() && s.timer == if Quick(s) > 0 || s.ival2 > 0 then Some(t1) else None
    ensures AfterTimeouts(s, k).log == s.log + Schedule(s, t1, Reached(s, k))
  {
    hide Schedule, Due;
    if Quick(s) > 0 || s.ival2 > 0 {
      TimerFollows(s, t1, k);
    } else {
      TimerIdle(s, k);
      NothingScheduled(s, t1);
    }
  }

  lemma NothingScheduled(s: Tx, t1: nat)
    requires s.Valid()
    ensures s.log + Schedule(s, t1, 0) == s.log
  {
  }

  /** The frames after TX_SETUP, one by one. */
  lemma SetupFrames(s: Tx, h: Head, data: seq<CanFrame>, t0: nat, i: nat)
    requires 1 <= |data| == h.nframes <= |s.frames| && (s.nframes == h.nframes ==> s.Valid()) && i < |s.frames|
    ensures Configure(s.(frames := CopyIn(s.frames, h, data, |data|)), h, t0).frames[i]
            == if i >= |data| then s.frames[i] else if h.cpCanId then data[i].(canId := h.canId) else data[i]
  {
    CopiedAt(s.frames, h, data, |data|, i);
    SetupExact(s.(frames := CopyIn(s.frames, h, data, |data|)), h, t0);
    hide Configure, CopyIn;
  }

  /** What a run brings: `n` frames after the first, in turn and as planned, and the end of a longer first phase. */
  predicate AsPlanned(run: seq<Event>, s: Tx, h: Head, t0: nat, n: nat)
    requires 1 <= h.nframes <= |s.frames|
  {
    var p, sent := PlanOf(s, h), Sends(run);
    && |sent| == 1 + n
    && (forall j :: 0 <= j <= n ==>
          var i := Turn(p.start, h.nframes, j); sent[j] == Sent(p.Time(t0, j), i, s.frames[i]))
    && Expiries(run) == if h.countEvt && 2 <= p.Quick <= n + 1 then [Expired(p.Time(t0, p.Quick - 1))] else []
  }

  lemma PlannedRun(s: Tx, s': Tx, h: Head, t0: nat, n: nat)
    requires 1 <= h.nframes <= |s.frames| && (s.nframes == h.nframes ==> s.Valid()) && h.startTimer
    requires s' == Configure(s, h, t0)
    ensures var p := PlanOf(s, h);
            AsPlanned([Sent(t0, p.start, s.frames[p.start])] + Schedule(s', p.Time(t0, 1), n), s, h, t0, n)
  {
    hide Configure, Plan.Time, Due, Cycle, Schedule, Sends, Expiries, Turn;
    var p := PlanOf(s, h);
    SetupExact(s, h, t0);
    hide PlanOf;
    var t1, first := p.Time(t0, 1), Sent(t0, p.start, s.frames[p.start]);
    var rest := Schedule(s', t1, n);
    ScheduleExact(s', t1, n);
    KindCons(first, rest);
    FrameAt(s', p, t0, 0);
    var sent := Sends([first] + rest);
    forall j | 0 <= j <= n
      ensures var i := Turn(p.start, h.nframes, j); sent[j] == Sent(p.Time(t0, j), i, s.frames[i])
    {
      FrameAt(s', p, t0, j);
      if j > 0 { assert sent[j] == Sends(rest)[j - 1]; }
    }
    if p.Quick >= 2 { FrameAt(s', p, t0, p.Quick - 1); }
  }

  /**
   What goes out after a setup that starts the timer, up to its k-th expiry: the frames take turns from the
   start on, at the planned times, and the end of a first phase of several frames is announced.
   */
  lemma RunExact(s: Tx, h: Head, t0: nat, k: nat) returns (run: seq<Event>)
    requires 1 <= h.nframes <= |s.frames| && (s.nframes == h.nframes ==> s.Valid()) && h.startTimer
    ensures AfterTimeouts(Configure(s, h, t0), k).log == s.log + run
    ensures AsPlanned(run, s, h, t0, PlanOf(s, h).Follow(k))
  {
    var p, s' := PlanOf(s, h), Configure(s, h, t0);
    SetupExact(s, h, t0);
    var n, t1 := p.Follow(k), p.Time(t0, 1);
    var first := Sent(t0, p.start, s.frames[p.start]);
    hide Configure, AsPlanned, PlanOf, Plan.Time, Due, Cycle, Schedule, AfterTimeouts;
    run := [first] + Schedule(s', t1, n);
    StartedLog(s', t1, k);
    assert s.log + [first] + Schedule(s', t1, n) == s.log + run;
    PlannedRun(s, s', h, t0, n);
  }

  lemma FrameAt(s': Tx, p: Plan, t0: nat, j: nat)
    requires s'.Valid() && p.start < s'.nframes && s'.currframe == Cycle(p.start, s'.nframes, 1)
    requires s'.ival1 == p.ival1 && s'.ival2 == p.ival2 && s'.count == if p.count > 0 then p.count - 1 else 0
    ensures j == 0 ==> p.Time(t0, 0) == t0 && p.start == Turn(p.start, s'.nframes, 0)
    ensures j > 0 ==> Cycle(s'.currframe, s'.nframes, j - 1) == Turn(p.start, s'.nframes, j)
    ensures j > 0 ==> Due(s', p.Time(t0, 1), j - 1) == p.Time(t0, j)
  {
    if j == 0 {
      CycleIsRoundRobin(p.start, s'.nframes, 0);
    } else {
      hide Cycle, Due, Plan.Time, Turn;
      CycleOn(p.start, s'.nframes, j - 1);
      CycleIsRoundRobin(p.start, s'.nframes, j);
      PlannedTimes(s', p, t0, j - 1);
    }
  }

  // ----- the code -----

  class TxOp {
    var frames: seq<CanFrame>
    var nframes: nat
    var currframe: nat
    var count: nat
    var ival1: nat
    var ival2: nat
    var countEvt: bool
    var timer: Option<nat>
    ghost var log: seq<Event>

    ghost function View(): Tx
      reads this
    {
      Tx(frames, nframes, currframe, count, ival1, ival2, countEvt, timer, log)
    }

    /** A new operation before it is configured, with room for the given frames. */
    constructor (frames: seq<CanFrame>)
      ensures View() == Tx(frames, 0, 0, 0, 0, 0, false, None, [])
    {
      this.frames, nframes, currframe, count, ival1, ival2, countEvt := frames, 0, 0, 0, 0, 0, false;
      timer, log := None, [];
    }

    method SendFrame(now: nat)
      requires View().Valid()
      modifies this`currframe, this`log
      ensures View() == CanTx(old(View()), now)
    {
      log := log + [Sent(now, currframe, frames[currframe])];
      currframe := currframe + 1;
      if currframe >= nframes { currframe := 0; }
    }

    method ArmTimer(now: nat)
      modifies this`timer
      ensures View() == StartTimer(old(View()), now)
    {
      if ival1 > 0 && count > 0 {
        timer := Some(now + ival1);
      } else if ival2 > 0 {
        timer := Some(now + ival2);
      }
    }

    method TimeoutTasklet(now: nat)
      requires View().Valid()
      modifies this
      ensures View() == Timeout(old(View()), now)
    {
      timer := None;
      if ival1 > 0 && count > 0 {
        count := count - 1;
        if count == 0 && countEvt { log := log + [Expired(now)]; }
        SendFrame(now);
      } else if ival2 > 0 {
        SendFrame(now);
      }
      ArmTimer(now);
    }

    /**
     TX_SETUP for an existing operation. A frame with a bad length ends the copying with an error
     after it has replaced the old one: the contents up to it stay changed, and nothing else does.
     */
    method TxSetup(h: Head, data: seq<CanFrame>, now: nat) returns (ret: int)
      requires nframes == 0 || View().Valid()
      requires |data| == h.nframes && nframes <= |frames|
      modifies this
      ensures h.nframes < 1 || h.nframes > MAX_NFRAMES ==> ret == -EINVAL && View() == old(View())
      ensures 1 <= h.nframes <= MAX_NFRAMES && h.nframes > old(nframes) ==> ret == -E2BIG && View() == old(View())
      ensures 1 <= h.nframes <= MAX_NFRAMES && h.nframes <= old(nframes) ==>
        var bad := FirstBad(data, 0);
        var copied := CopyIn(old(frames), h, data, bad);
        if bad == |data| then
          ret == 0 && View() == Configure(old(View()).(frames := copied), h, now)
        else
          ret == -EINVAL && View() == old(View()).(frames := copied[bad := data[bad]])
    {
      if h.nframes < 1 || h.nframes > MAX_NFRAMES { return -EINVAL; }
      if h.nframes > nframes { return -E2BIG; }
      var i := 0;
      while i < h.nframes
        invariant 0 <= i <= |data| && FirstBad(data, 0) == FirstBad(data, i)
        invariant View() == old(View()).(frames := CopyIn(old(frames), h, data, i))
      {
        frames := frames[i := data[i]];
        if frames[i].dlc > 8 { return -EINVAL; }
        if h.cpCanId { frames := frames[i := frames[i].(canId := h.canId)]; }
        i := i + 1;
      }
      SetUp(h, now);
      ret := 0;
    }

    /** The part of TX_SETUP after the frame contents. */
    method SetUp(h: Head, now: nat)
      requires 1 <= h.nframes <= |frames| && (nframes == h.nframes ==> View().Valid())
      modifies this
      ensures View() == Configure(old(View()), h, now)
    {
      if nframes != h.nframes { nframes, currframe := h.nframes, 0; }
      countEvt := h.countEvt;
      if h.resetIdx { currframe := 0; }
      if h.setTimer {
        count, ival1, ival2 := h.count, h.ival1, h.ival2;
        if ival1 == 0 && ival2 == 0 { timer := None; }
      }
      assert View() == SetValues(old(View()), h);
      StartUp(h, now);
    }

    method StartUp(h: Head, now: nat)
      requires View().Valid()
      modifies this
      ensures View() == Announce(old(View()), h, now)
    {
      if h.startTimer { timer := None; }
      if h.startTimer || h.announce {
        SendFrame(now);
        if count > 0 { count := count - 1; }
      }
      if h.startTimer { ArmTimer(now); }
    }
  }
}
