/**
 The use count of an IIO trigger: how a poll is fanned out to the consumers and how the trigger
 is reenabled when the last of them is done. The check and the assignment of the use count at
 the start of a poll are separate atomic steps, so polls can overlap; `State` is the protocol
 as a machine over any interleaving, and the class `IioTrigger` is the code.
 */
module Trigger {

  /**
   One trigger with a slot per consumer. `walks` holds the position of every poll that got past
   the check and walks the slots, the latest last; `outstanding` the polled consumers that have
   not reported done; `armed` the polls between check and assignment; `pending` the calls of
   `try_reenable` that are due. The last four count what has happened.
   */
  datatype State = State(enabled: seq<bool>, hooked: bool, useCount: int, armed: nat, walks: seq<nat>,
                         outstanding: multiset<nat>, pending: nat,
                         rounds: nat, drained: nat, reenables: nat)
  {
    const Slots := |enabled|
  }

  datatype Step = Read | Assign | Visit(walk: nat) | Done(slot: nat) | Reenable | Enable(slot: nat, on: bool)

  function Fresh(slots: nat, hooked: bool): State {
    State(seq(slots, _ => false), hooked, 0, 0, [], multiset{}, 0, 0, 0, 0)
  }

  predicate Can(s: State, step: Step) {
    match step
    case Read => true
    case Assign => s.armed > 0
    case Visit(w) => w < |s.walks| && s.walks[w] < s.Slots
    case Done(slot) => slot in s.outstanding
    case Reenable => s.pending > 0
    case Enable(slot, _) => slot < s.Slots
  }

  /** `iio_trigger_notify_done` up to the call of `try_reenable`. */
  function NotifyDone(s: State): State {
    var last := s.useCount == 1;
    s.(useCount := s.useCount - 1,
       drained := s.drained + if last then 1 else 0,
       pending := s.pending + if last && s.hooked then 1 else 0)
  }

  function Next(s: State, step: Step): State
    requires Can(s, step)
  {
    match step
    case Read => if s.useCount == 0 then s.(armed := s.armed + 1) else s
    case Assign => s.(armed := s.armed - 1, useCount := s.Slots, walks := s.walks + [0], rounds := s.rounds + 1)
    case Visit(w) =>
      var slot := s.walks[w];
      var s1 := s.(walks := s.walks[w := slot + 1]);
      if s.enabled[slot] then s1.(outstanding := s.outstanding + multiset{slot}) else NotifyDone(s1)
    case Done(slot) => NotifyDone(s.(outstanding := s.outstanding - multiset{slot}))
    case Reenable => s.(pending := s.pending - 1, reenables := s.reenables + 1)
    case Enable(slot, on) => s.(enabled := s.enabled[slot := on])
  }

  predicate Runs(s: State, run: seq<Step>)
    decreases |run|, 0
  {
    run == [] || (Runs(s, run[..|run| - 1]) && Can(After(s, run[..|run| - 1]), run[|run| - 1]))
  }

  function After(s: State, run: seq<Step>): State
    requires Runs(s, run)
    decreases |run|, 1
  {
    if run == [] then s else Next(After(s, run[..|run| - 1]), run[|run| - 1])
  }

  /** No poll passes the check while another one is between check and assignment. */
  predicate Apart(s: State, step: Step) { step.Read? && s.useCount == 0 ==> s.armed == 0 }

  predicate Serialised(s: State, run: seq<Step>)
    requires Runs(s, run)
    decreases |run|
  {
    run == [] || (Serialised(s, run[..|run| - 1]) && Apart(After(s, run[..|run| - 1]), run[|run| - 1]))
  }

  /** A round starts with the use count still at zero. */
  predicate OnZero(s: State, step: Step) { step.Assign? ==> s.useCount == 0 }

  predicate AssignsOnZero(s: State, run: seq<Step>)
    requires Runs(s, run)
    decreases |run|
  {
    run == [] || (AssignsOnZero(s, run[..|run| - 1]) && OnZero(After(s, run[..|run| - 1]), run[|run| - 1]))
  }

  // ----- the accounting -----

  function Unvisited(walks: seq<nat>, slots: nat): int {
    if walks == [] then 0 else Unvisited(walks[..|walks| - 1], slots) + (slots - walks[|walks| - 1])
  }

  /** The use count is the number of slots still to be visited plus the consumers not yet done. */
  predicate Balanced(s: State) { s.useCount == Unvisited(s.walks, s.Slots) + |s.outstanding| }

  /** It is so after every prefix of the run. */
  predicate BalancedThroughout(s: State, run: seq<Step>)
    requires Runs(s, run)
    decreases |run|
  {
    Balanced(After(s, run)) && (run == [] || BalancedThroughout(s, run[..|run| - 1]))
  }

  /** Only the latest poll can have slots left. */
  predicate OneWalk(walks: seq<nat>, slots: nat) {
    && (forall k :: 0 <= k < |walks| - 1 ==> walks[k] == slots)
    && (walks != [] ==> walks[|walks| - 1] <= slots)
  }

  /** Each consumer was polled by the latest poll and at most once. */
  predicate PolledOnce(outstanding: multiset<nat>, walks: seq<nat>) {
    forall slot :: slot in outstanding ==>
      outstanding[slot] == 1 && walks != [] && slot < walks[|walks| - 1]
  }

  /** Rounds, drains and reenables correspond one to one, up to what is going on. */
  predicate OncePerRound(s: State) {
    && s.rounds == |s.walks|
    && s.rounds == s.drained + (if s.useCount > 0 then 1 else 0)
    && s.reenables + s.pending == (if s.hooked then s.drained else 0)
  }

  predicate Inv(s: State) {
    && s.Slots > 0 && OneWalk(s.walks, s.Slots) && Balanced(s) && PolledOnce(s.outstanding, s.walks)
    && OncePerRound(s)
  }

  lemma {:induction false} UnvisitedOne(walks: seq<nat>, slots: nat)
    requires OneWalk(walks, slots)
    ensures Unvisited(walks, slots) == if walks == [] then 0 else slots - walks[|walks| - 1]
  {
    if walks != [] {
      var front := walks[..|walks| - 1];
      UnvisitedOne(front, slots);
    }
  }

  lemma UnvisitedNew(walks: seq<nat>, slots: nat)
    ensures Unvisited(walks + [0], slots) == Unvisited(walks, slots) + slots
  {
    assert (walks + [0])[..|walks|] == walks;
  }

  /** When the count is down to zero, every slot was visited and every consumer is done. */
  lemma ZeroIsDrained(s: State)
    requires OneWalk(s.walks, s.Slots) && Balanced(s) && s.useCount <= 0
    ensures s.useCount == 0 && s.outstanding == multiset{}
    ensures forall k :: 0 <= k < |s.walks| ==> s.walks[k] == s.Slots
  {
    UnvisitedOne(s.walks, s.Slots);
    assert |s.outstanding| == 0;
  }

  lemma VisitKeeps(s: State, w: nat)
    requires Inv(s) && Can(s, Visit(w))
    ensures w == |s.walks| - 1 && s.walks[w] !in s.outstanding && Inv(Next(s, Visit(w)))
  {
    var s' := Next(s, Visit(w));
    UnvisitedOne(s.walks, s.Slots);
    assert OneWalk(s'.walks, s.Slots);
    UnvisitedOne(s'.walks, s.Slots);
  }

  lemma DoneKeeps(s: State, slot: nat)
    requires Inv(s) && Can(s, Done(slot))
    ensures Inv(Next(s, Done(slot)))
  {
    hide Unvisited;
    UnvisitedOne(s.walks, s.Slots);
  }

  lemma AssignKeeps(s: State)
    requires Inv(s) && Can(s, Assign) && s.useCount == 0
    ensures Inv(Next(s, Assign))
  {
    hide Unvisited;
    ZeroIsDrained(s);
    UnvisitedNew(s.walks, s.Slots);
  }

  /** Every step keeps the accounting, if a round starts on a count of zero. */
  lemma StepKeeps(s: State, step: Step)
    requires Inv(s) && Can(s, step) && OnZero(s, step)
    ensures Inv(Next(s, step))
  {
    hide Unvisited, OneWalk, PolledOnce;
    match step
    case Visit(w) => VisitKeeps(s, w);
    case Done(slot) => DoneKeeps(s, slot);
    case Assign => AssignKeeps(s);
    case _ =>
  }

  /** So does every such run, whatever the interleaving. */
  lemma {:induction false} RunKeeps(slots: nat, hooked: bool, run: seq<Step>)
    requires slots > 0 && Runs(Fresh(slots, hooked), run) && AssignsOnZero(Fresh(slots, hooked), run)
    ensures Inv(After(Fresh(slots, hooked), run)) && BalancedThroughout(Fresh(slots, hooked), run)
  {
    var s := Fresh(slots, hooked);
    if run == [] {
    } else {
      var front := run[..|run| - 1];
      RunKeeps(slots, hooked, front);
      StepKeeps(After(s, front), run[|run| - 1]);
    }
  }

  /** The assignment keeps the count right exactly if it finds the count still zero. */
  lemma AssignExact(s: State)
    requires Balanced(s) && Can(s, Assign)
    ensures Balanced(Next(s, Assign)) <==> s.useCount == 0
  {
    UnvisitedNew(s.walks, s.Slots);
  }

  /**
   In every interleaving whatsoever, the count is right all along if and only if each round
   starts on a count of zero.
   */
  lemma {:induction false} AccountingExact(slots: nat, hooked: bool, run: seq<Step>)
    requires slots > 0 && Runs(Fresh(slots, hooked), run)
    ensures BalancedThroughout(Fresh(slots, hooked), run) <==> AssignsOnZero(Fresh(slots, hooked), run)
  {
    var s := Fresh(slots, hooked);
    if AssignsOnZero(s, run) {
      RunKeeps(slots, hooked, run);
    } else {
      var front := run[..|run| - 1];
      AccountingExact(slots, hooked, front);
      hide Balanced, Next;
      if BalancedThroughout(s, front) && run[|run| - 1].Assign? {
        AssignExact(After(s, front));
      }
    }
  }

  /**
   What this means for the next step of such a run: a round may start exactly when the one before
   it was visited and reported in full, no consumer is polled while it is still busy, and a
   `try_reenable` is due exactly when a round has drained and not had its own.
   */
  lemma NoOverlap(slots: nat, hooked: bool, run: seq<Step>, step: Step)
    requires slots > 0 && Runs(Fresh(slots, hooked), run) && AssignsOnZero(Fresh(slots, hooked), run)
    requires Can(After(Fresh(slots, hooked), run), step)
    ensures var s := After(Fresh(slots, hooked), run);
            && s.useCount == Unvisited(s.walks, s.Slots) + |s.outstanding|
            && (OnZero(s, Assign) <==>
                  && s.outstanding == multiset{} && s.drained == s.rounds
                  && forall k :: 0 <= k < |s.walks| ==> s.walks[k] == s.Slots)
            && (step.Visit? ==> s.walks[step.walk] !in s.outstanding)
            && (step.Reenable? ==> s.reenables < s.drained)
            && s.drained <= s.rounds <= s.drained + 1
            && (hooked ==> s.reenables + s.pending == s.drained)
  {
    var s := After(Fresh(slots, hooked), run);
    hide Unvisited, OneWalk, PolledOnce, Runs, AssignsOnZero, BalancedThroughout, Next, After;
    RunKeeps(slots, hooked, run);
    HookStays(Fresh(slots, hooked), run);
    ZeroExact(s);
    if step.Visit? { VisitKeeps(s, step.walk); }
  }

  lemma ZeroExact(s: State)
    requires Inv(s)
    ensures s.useCount == 0 <==>
              && s.outstanding == multiset{} && s.drained == s.rounds
              && forall k :: 0 <= k < |s.walks| ==> s.walks[k] == s.Slots
  {
    UnvisitedOne(s.walks, s.Slots);
    hide Unvisited;
    if s.useCount == 0 { ZeroIsDrained(s); }
  }

  lemma {:induction false} HookStays(s: State, run: seq<Step>)
    requires Runs(s, run)
    ensures After(s, run).hooked == s.hooked
  {
    if run != [] {
      HookStays(s, run[..|run| - 1]);
    }
  }

  // ----- when polls overlap -----

  /** A rule that is enough: with one poll at a time between check and assignment, all start on zero. */
  lemma {:induction false} SerialisedSuffices(slots: nat, hooked: bool, run: seq<Step>)
    requires slots > 0 && Runs(Fresh(slots, hooked), run) && Serialised(Fresh(slots, hooked), run)
    ensures AssignsOnZero(Fresh(slots, hooked), run)
    ensures var s := After(Fresh(slots, hooked), run); s.armed <= 1 && (s.armed == 1 ==> s.useCount == 0)
  {
    if run == [] {
    } else {
      var front := run[..|run| - 1];
      var s := After(Fresh(slots, hooked), front);
      SerialisedSuffices(slots, hooked, front);
      RunKeeps(slots, hooked, front);
      hide Inv, Next, Apart;
      OneArmed(s, run[|run| - 1]);
    }
  }

  lemma OneArmed(s: State, step: Step)
    requires Inv(s) && s.armed <= 1 && (s.armed == 1 ==> s.useCount == 0) && Can(s, step) && Apart(s, step)
    ensures OnZero(s, step)
    ensures var s' := Next(s, step); s'.armed <= 1 && (s'.armed == 1 ==> s'.useCount == 0)
  {
    hide Unvisited;
    if s.useCount == 0 { ZeroIsDrained(s); }
  }

  /** It is not necessary: two polls that overlap may still come one round after the other. */
  lemma HarmlessOverlap()
    ensures var s := Fresh(1, false); var run := [Read, Read, Assign, Visit(0), Assign];
            && Runs(s, run) && !Serialised(s, run) && BalancedThroughout(s, run)
  {
    var s := Fresh(1, false);
    NoSteps(s);
    hide Runs, After, Serialised, AssignsOnZero, BalancedThroughout;
    RunSnoc(s, [], Read);
    RunSnoc(s, [] + [Read], Read);
    var run := [] + [Read] + [Read];
    RunSnoc(s, run, Assign);
    RunSnoc(s, run + [Assign], Visit(0));
    UnvisitedNew([], 1);
    UnvisitedNew([1], 1);
    RunSnoc(s, run + [Assign] + [Visit(0)], Assign);
    assert run + [Assign] + [Visit(0)] + [Assign] == [Read, Read, Assign, Visit(0), Assign];
  }

  function Assigns(n: nat): (r: seq<Step>)
    ensures |r| == n && forall k :: 0 <= k < n ==> r[k] == Assign
  {
    seq(n, _ => Assign)
  }

  /**
   From any state of the protocol with a zero count, if one more poll passes the check and then
   all that passed it go on, the count is right throughout exactly when no other was in between.
   */
  lemma OverlapExact(s: State)
    requires Inv(s) && s.useCount == 0
    ensures var s1 := Next(s, Read); var run := Assigns(s1.armed);
            && Runs(s1, run) && (BalancedThroughout(s1, run) <==> s.armed == 0)
  {
    AssignsBreak(Next(s, Read), s.armed + 1);
  }

  lemma {:induction false} AssignsBreak(s: State, n: nat)
    requires Inv(s) && s.useCount == 0 && 0 < n <= s.armed
    ensures Runs(s, Assigns(n)) && (BalancedThroughout(s, Assigns(n)) <==> n == 1)
    ensures var t := After(s, Assigns(n)); t.useCount == t.Slots == s.Slots && t.armed == s.armed - n
  {
    var run := Assigns(n);
    assert run[..n - 1] == Assigns(n - 1);
    hide Balanced, Inv;
    if n == 1 {
      NoSteps(s);
      StepKeeps(s, Assign);
      InvBalanced(s);
      InvBalanced(Next(s, Assign));
      assert After(s, run) == Next(s, Assign);
    } else {
      AssignsBreak(s, n - 1);
      InvBalanced(s);
      if n == 2 { AssignExact(After(s, Assigns(1))); }
    }
  }

  lemma InvBalanced(s: State)
    requires Inv(s)
    ensures Balanced(s) && s.Slots > 0
  {
  }

  lemma RunSnoc(s: State, run: seq<Step>, step: Step)
    requires Runs(s, run) && Can(After(s, run), step)
    ensures Runs(s, run + [step]) && After(s, run + [step]) == Next(After(s, run), step)
    ensures Serialised(s, run + [step]) <==> Serialised(s, run) && Apart(After(s, run), step)
    ensures AssignsOnZero(s, run + [step]) <==> AssignsOnZero(s, run) && OnZero(After(s, run), step)
    ensures BalancedThroughout(s, run + [step]) <==> BalancedThroughout(s, run) && Balanced(After(s, run + [step]))
  {
    assert (run + [step])[..|run|] == run;
  }

  /** Two overlapping polls of a one-slot trigger: the consumer is polled again while busy. */
  lemma OverlapExample()
    ensures var s := Fresh(1, true); var run := [Enable(0, true), Read, Read, Assign, Visit(0), Assign, Visit(1)];
            && Runs(s, run) && !Serialised(s, run)
            && After(s, run) == State([true], true, 1, 0, [1, 1], multiset{0, 0}, 0, 2, 0, 0)
  {
    hide Runs, After, Serialised, AssignsOnZero, BalancedThroughout, Balanced;
    var s := Fresh(1, true);
    var s1 := s.(enabled := [true]);
    var s4 := s1.(armed := 1, useCount := 1, walks := [0], rounds := 1);
    var s6 := s1.(useCount := 1, walks := [1, 0], outstanding := multiset{0}, rounds := 2);
    NoSteps(s);
    RunSnoc(s, [], Enable(0, true));
    assert s.enabled[0 := true] == [true];
    var run := [] + [Enable(0, true)];
    RunSnoc(s, run, Read);
    RunSnoc(s, run + [Read], Read);
    RunSnoc(s, run + [Read] + [Read], Assign);
    run := run + [Read] + [Read] + [Assign];
    assert After(s, run) == s4;
    RunSnoc(s, run, Visit(0));
    RunSnoc(s, run + [Visit(0)], Assign);
    run := run + [Visit(0)] + [Assign];
    assert After(s, run) == s6;
    RunSnoc(s, run, Visit(1));
    assert run + [Visit(1)] == [Enable(0, true), Read, Read, Assign, Visit(0), Assign, Visit(1)];
  }

  /** All that was started is over, and still the count is not zero: no poll will ever pass the check. */
  ghost predicate Dead(s: State) {
    && s.useCount != 0 && s.armed == 0 && s.outstanding == multiset{}
    && forall k :: 0 <= k < |s.walks| ==> s.walks[k] >= s.Slots
  }

  /** A dead trigger stays so for good, and starts no round. */
  lemma {:induction false} DeadForever(s: State, run: seq<Step>)
    requires Dead(s) && Runs(s, run)
    ensures var t := After(s, run);
            Dead(t) && t.useCount == s.useCount && t.rounds == s.rounds && t.drained == s.drained
  {
    hide Dead, Can, Next;
    if run != [] {
      var front := run[..|run| - 1];
      DeadForever(s, front);
      DeadStep(After(s, front), run[|run| - 1]);
    }
  }

  lemma DeadStep(s: State, step: Step)
    requires Dead(s) && Can(s, step)
    ensures var t := Next(s, step);
            Dead(t) && t.useCount == s.useCount && t.rounds == s.rounds && t.drained == s.drained
  {
  }

  /** With rounds that start on a count of zero it does not come to that. */
  lemma NeverDead(slots: nat, hooked: bool, run: seq<Step>)
    requires slots > 0 && Runs(Fresh(slots, hooked), run) && AssignsOnZero(Fresh(slots, hooked), run)
    ensures !Dead(After(Fresh(slots, hooked), run))
  {
    var s := After(Fresh(slots, hooked), run);
    RunKeeps(slots, hooked, run);
    UnvisitedOne(s.walks, s.Slots);
    hide Unvisited;
  }

  /** But the two overlapping polls end in it: two rounds, one of them drained, and a count of -1. */
  lemma OverlapDies()
    ensures var s := Fresh(1, true);
            var run := [Enable(0, true), Read, Read, Assign, Visit(0), Assign, Visit(1)] + [Done(0)] + [Done(0)];
            && Runs(s, run) && Dead(After(s, run))
            && After(s, run).useCount == -1 && After(s, run).rounds == 2 && After(s, run).drained == 1
            && After(s, run).pending == 1
  {
    hide Runs, After, Serialised, AssignsOnZero, BalancedThroughout, Balanced;
    OverlapExample();
    var s, run := Fresh(1, true), [Enable(0, true), Read, Read, Assign, Visit(0), Assign, Visit(1)];
    RunSnoc(s, run, Done(0));
    RunSnoc(s, run + [Done(0)], Done(0));
  }

  lemma NoSteps(s: State)
    ensures Runs(s, []) && After(s, []) == s && Serialised(s, []) && AssignsOnZero(s, [])
    ensures BalancedThroughout(s, []) <==> Balanced(s)
  {
  }

  // ----- the code -----

  /** The polled slots below `n` whose consumers hand the work on and report done later. */
  function Waiting(enabled: seq<bool>, later: seq<bool>, n: nat): set<nat>
    requires n <= |enabled| == |later|
  {
    set slot: nat | slot < n && enabled[slot] && later[slot]
  }

  lemma WaitingNext(enabled: seq<bool>, later: seq<bool>, n: nat)
    requires n < |enabled| == |later|
    ensures Waiting(enabled, later, n + 1)
            == Waiting(enabled, later, n) + if enabled[n] && later[n] then {n} else {}
    ensures n !in Waiting(enabled, later, n)
  {
  }

  /** `st` was reached by a run whose rounds start on zero. */
  ghost predicate Reached(hooked: bool, run: seq<Step>, st: State) {
    var s := Fresh(st.Slots, hooked);
    st.Slots > 0 && Runs(s, run) && AssignsOnZero(s, run) && After(s, run) == st
  }

  lemma ReachedNext(hooked: bool, run: seq<Step>, st: State, step: Step)
    requires Reached(hooked, run, st) && Can(st, step) && OnZero(st, step)
    ensures Reached(hooked, run + [step], Next(st, step)) && Inv(st) && Inv(Next(st, step))
  {
    var s := Fresh(st.Slots, hooked);
    RunSnoc(s, run, step);
    RunKeeps(st.Slots, hooked, run);
    StepKeeps(st, step);
  }

  /** The latest poll has visited the slots below `i`, and only the slow consumers are left of those. */
  ghost predicate At(s: State, later: seq<bool>, i: nat, rounds: nat) {
    && |later| == s.Slots && i <= s.Slots && s.armed == 0 && s.rounds == rounds
    && s.walks != [] && s.walks[|s.walks| - 1] == i
    && s.outstanding == multiset(Waiting(s.enabled, later, i))
  }

  /** The next visit of the latest poll. */
  function Latest(s: State): Step {
    Visit(if s.walks == [] then 0 else |s.walks| - 1)
  }

  lemma AtCount(s: State, later: seq<bool>, i: nat, rounds: nat)
    requires Inv(s) && At(s, later, i, rounds)
    ensures s.useCount == s.Slots - i + |Waiting(s.enabled, later, i)|
  {
    UnvisitedOne(s.walks, s.Slots);
  }

  lemma Idle(s: State)
    requires Inv(s)
    ensures s.useCount == 0 ==> s.outstanding == multiset{}
  {
    if s.useCount == 0 { ZeroIsDrained(s); }
  }

  lemma AtStart(s: State, later: seq<bool>)
    requires Inv(s) && s.armed == 1 && s.useCount == 0 && |later| == s.Slots
    ensures At(Next(s, Assign), later, 0, s.rounds + 1)
  {
    ZeroIsDrained(s);
    assert Waiting(s.enabled, later, 0) == {};
  }

  /** Slot `i` is visited: a disabled one counts as done, an enabled one waits for its consumer. */
  lemma AtVisit(s: State, later: seq<bool>, i: nat, rounds: nat)
    requires Inv(s) && At(s, later, i, rounds) && i < s.Slots
    ensures var step := Latest(s); var s' := Next(s, step);
            && Can(s, step)
            && (!s.enabled[i] || later[i] ==> At(s', later, i + 1, rounds))
            && (s.enabled[i] && !later[i] ==> Can(s', Done(i)) && At(Next(s', Done(i)), later, i + 1, rounds))
            && s.useCount > 0 && s'.enabled == s.enabled && Inv(s') && s.walks != [] && s.walks[|s.walks| - 1] == i
            && (s.enabled[i] ==>
                  && s'.pending == s.pending && s'.armed == s.armed && s'.useCount == s.useCount
                  && s'.hooked == s.hooked
                  && (!later[i] ==> Inv(Next(s', Done(i))) && Next(s', Done(i)).enabled == s.enabled))
  {
    hide Inv, At, Waiting;
    AtCount(s, later, i, rounds);
    AtVisitSlot(s, later, i, rounds);
    VisitKeeps(s, |s.walks| - 1);
    VisitRest(s, i);
    var s' := Next(s, Latest(s));
    hide Next;
    if s.enabled[i] && !later[i] { DoneKeeps(s', i); }
  }

  lemma VisitRest(s: State, i: nat)
    requires s.walks != [] && s.walks[|s.walks| - 1] == i < s.Slots
    ensures var s' := Next(s, Latest(s));
            && s'.enabled == s.enabled
            && (s.enabled[i] ==>
                  && s'.pending == s.pending && s'.armed == s.armed && s'.useCount == s.useCount
                  && s'.hooked == s.hooked)
            && (Can(s', Done(i)) ==> Next(s', Done(i)).enabled == s.enabled)
  {
  }

  lemma AtVisitSlot(s: State, later: seq<bool>, i: nat, rounds: nat)
    requires At(s, later, i, rounds) && i < s.Slots
    ensures var step := Latest(s); var s' := Next(s, step);
            && Can(s, step) && s.walks != [] && s.walks[|s.walks| - 1] == i && |later| == s.Slots
            && (!s.enabled[i] || later[i] ==> At(s', later, i + 1, rounds))
            && (s.enabled[i] && !later[i] ==> Can(s', Done(i)) && At(Next(s', Done(i)), later, i + 1, rounds))
  {
    hide Waiting;
    WaitingNext(s.enabled, later, i);
    var w := Waiting(s.enabled, later, i);
    assert multiset(w + {i}) == multiset(w) + multiset{i};
    assert multiset(w) + multiset{i} - multiset{i} == multiset(w);
  }

  /**
   The trigger, with what it meets in its surroundings: `later` says which consumers finish
   after their handler has returned, `missed` how many interrupts the device has latched, each
   of which makes one `try_reenable` return true. `run` and `st` follow the steps taken.
   */
  class IioTrigger {
    const hooked: bool
    const later: seq<bool>
    var useCount: int
    var enabled: seq<bool>
    var missed: nat
    ghost var run: seq<Step>
    ghost var st: State

    ghost predicate Valid()
      reads this
    {
      && Reached(hooked, run, st) && Inv(st) && st.hooked == hooked
      && st.useCount == useCount && st.enabled == enabled && |enabled| == |later|
    }

    /** Nothing is between two steps. */
    ghost predicate Quiet()
      reads this
    {
      Valid() && st.armed == 0 && st.pending == 0
    }

    constructor (hooked: bool, later: seq<bool>, missed: nat)
      requires |later| > 0
      ensures Quiet() && this.hooked == hooked && this.later == later && this.missed == missed
      ensures st == Fresh(|later|, hooked)
    {
      this.hooked, this.later, this.missed := hooked, later, missed;
      useCount, enabled := 0, seq(|later|, _ => false);
      run, st := [], Fresh(|later|, hooked);
    }

    ghost method Take(step: Step)
      requires Reached(hooked, run, st) && Can(st, step) && OnZero(st, step)
      modifies `run, `st
      ensures Reached(hooked, run, st) && Inv(st) && st == Next(old(st), step)
    {
      ReachedNext(hooked, run, st, step);
      run, st := run + [step], Next(st, step);
    }

    /** `iio_trig_subirqmask`, `iio_trig_subirqunmask` */
    method SetEnabled(slot: nat, on: bool)
      requires Quiet() && slot < |enabled|
      modifies this
      ensures Quiet() && enabled == old(enabled)[slot := on] && missed == old(missed)
      ensures st == old(st).(enabled := enabled)
    {
      hide Reached, Inv;
      enabled := enabled[slot := on];
      Take(Enable(slot, on));
    }

    /**
     The state after a round was started with `rounds` before it and `more` interrupts latched:
     if every consumer is done at once, so is the round, and each latched interrupt gets a
     round of its own; otherwise the consumers that finish later are being waited for.
     */
    ghost predicate Polled(rounds: nat, more: nat)
      reads this
      requires |enabled| == |later|
    {
      var waiting := Waiting(enabled, later, |enabled|);
      && st.outstanding == multiset(waiting) && useCount == |waiting|
      && if waiting == {} && hooked then st.rounds == rounds + 1 + more && missed == 0
         else st.rounds == rounds + 1 && missed == more
    }

    /** After the visit of the slots below `i` in the round that follows `rounds` others. */
    ghost predicate Visited(i: nat, rounds: nat, more: nat)
      reads this
      requires |enabled| == |later|
    {
      if i < |enabled| then At(st, later, i, rounds + 1) && missed == more else Polled(rounds, more)
    }

    /** After a round has drained as number `rounds`, with `more` interrupts latched. */
    ghost predicate Drained(rounds: nat, more: nat)
      reads this
      requires |enabled| == |later|
    {
      if hooked && more > 0 then Polled(rounds, more - 1)
      else st.outstanding == multiset{} && useCount == 0 && st.rounds == rounds && missed == more
    }

    lemma Settle(s1: State, i: nat, rounds: nat, more: nat)
      requires Quiet() && Inv(s1) && At(s1, later, i, rounds + 1) && s1.enabled == enabled
      requires if s1.useCount != 0 then st == s1 && missed == more else Drained(s1.rounds, more)
      ensures Visited(i, rounds, more)
    {
      hide Reached, Inv, Waiting;
      AtCount(s1, later, i, rounds + 1);
    }

    /** `iio_trigger_poll` */
    method Poll()
      requires Quiet()
      modifies this
      ensures Quiet() && enabled == old(enabled)
      ensures old(useCount) != 0 ==> st == old(st) && missed == old(missed)
      ensures old(useCount) == 0 ==> Polled(old(st).rounds, old(missed))
      decreases missed, 3
    {
      hide Reached, Inv, At, Polled, Waiting, Drained;
      Take(Read);
      if useCount == 0 {
        AtStart(st, later);
        useCount := |enabled|;
        Take(Assign);
        var i := 0;
        while i < |enabled|
          invariant i <= |enabled| && Quiet() && enabled == old(enabled)
          invariant Visited(i, old(st).rounds, old(missed))
        {
          if enabled[i] {
            HandleIrq(i, old(st).rounds);
          } else {
            SkipSlot(i, old(st).rounds);
          }
          i := i + 1;
        }
      }
    }

    /** A disabled slot counts as done at once. */
    method SkipSlot(i: nat, ghost rounds: nat)
      requires Quiet() && i < |enabled| && !enabled[i] && At(st, later, i, rounds + 1)
      modifies this
      ensures Quiet() && enabled == old(enabled) && Visited(i + 1, rounds, old(missed))
      decreases missed, 2
    {
      hide Reached, Inv, At, Polled, Visited, Drained, Next, Can;
      AtVisit(st, later, i, rounds + 1);
      ghost var s1 := Next(st, Latest(st));
      NotifyDone(Latest(st));
      Settle(s1, i + 1, rounds, old(missed));
    }

    /** `generic_handle_irq`: the consumer's handler, which may be done at once. */
    method HandleIrq(i: nat, ghost rounds: nat)
      requires Quiet() && i < |enabled| && enabled[i] && At(st, later, i, rounds + 1)
      modifies this
      ensures Quiet() && enabled == old(enabled) && Visited(i + 1, rounds, old(missed))
      decreases missed, 2
    {
      hide Reached, Inv, At, Polled, Visited, Drained, Next, Can;
      AtVisit(st, later, i, rounds + 1);
      Take(Latest(st));
      ghost var s1 := st;
      if !later[i] {
        s1 := Next(st, Done(i));
        NotifyDone(Done(i));
      }
      Settle(s1, i + 1, rounds, old(missed));
    }

    /** `iio_trigger_notify_done`, as the step that makes the caller done. */
    method NotifyDone(ghost step: Step)
      requires Quiet() && Can(st, step)
      requires step.Done? || (step.Visit? && !enabled[st.walks[step.walk]])
      modifies this
      ensures Quiet() && enabled == old(enabled)
      ensures var s1 := Next(old(st), step);
              if s1.useCount != 0 then st == s1 && missed == old(missed)
              else Drained(s1.rounds, old(missed))
      decreases missed, 1
    {
      hide Reached, Inv, Polled;
      useCount := useCount - 1;
      Take(step);
      Idle(st);
      if useCount == 0 && hooked {
        var again := TryReenable();
        if again {
          Poll();
        }
      }
    }

    /** `try_reenable` of a driver: reports the interrupts that came in the meantime, one by one. */
    method TryReenable() returns (again: bool)
      requires Valid() && st.armed == 0 && st.pending == 1 && useCount == 0
      modifies this
      ensures Quiet() && useCount == 0 && enabled == old(enabled) && st == Next(old(st), Reenable)
      ensures again == (old(missed) > 0) && missed == old(missed) - if again then 1 else 0
    {
      hide Reached, Inv;
      again := missed > 0;
      if again { missed := missed - 1; }
      Take(Reenable);
    }
  }
}
