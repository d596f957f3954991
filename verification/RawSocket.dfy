/**
 Raw CAN sockets: binding, rebinding, replacing filters, losing the device and releasing, on
 top of receiver registration that can fail at any single filter. `At(rx, d)` is the multiset
 of receivers in the lists of device `d`; device 0 stands for the lists of all devices.
 Registering and unregistering act on a list as `Dispatcher.DevRcvLists` shows.
 */
module RawSocket {
  import opened Common
  import opened Dispatcher

  const RAW_RCV := 1

  type RxLists = map<nat, multiset<Entry>>   // devices without receive lists are absent

  function At(rx: RxLists, d: nat): multiset<Entry> {
    if d in rx then rx[d] else multiset{}
  }

  datatype Filter = Filter(canId: CanId, mask: CanId)

  /** The socket's own fields. */
  datatype Sock = Sock(bound: bool, ifindex: nat, filters: seq<Filter>, errMask: CanId)

  /** `listed`: devices a lookup by index finds. `removing`: lists to be freed once empty. */
  datatype State = State(rx: RxLists, listed: set<nat>, canDevs: set<nat>, removing: set<nat>, sock: Sock)
  {
    /** Only CAN devices have lists; those for all devices always exist. */
    predicate Valid() {
      0 in rx && 0 !in removing && forall d :: d in rx ==> d == 0 || d in canDevs
    }

    /** A lookup of the device the socket is bound to succeeds, or none is needed. */
    predicate Found() {
      !sock.bound || sock.ifindex == 0 || sock.ifindex in listed
    }

    /** The device a filter change goes to; none found means the lists for all devices. */
    function FilterDev(): nat {
      if sock.bound && sock.ifindex != 0 && sock.ifindex in listed then sock.ifindex else 0
    }

    predicate Usable(dev: nat) {
      (dev == 0 || dev in canDevs) && dev in rx
    }
  }

  /** What registering `fs` for the socket `sk` puts into a device's lists. */
  function Entries(fs: seq<Filter>, sk: nat): (es: multiset<Entry>)
    ensures |es| == |fs|
  {
    if fs == [] then multiset{}
    else Entries(fs[..|fs| - 1], sk) + multiset{EntryFor(fs[|fs| - 1], sk)}
  }

  function EntryFor(f: Filter, sk: nat): Entry {
    EntryOf(f.canId, f.mask, RAW_RCV, sk)
  }

  lemma EntriesNext(fs: seq<Filter>, i: nat, sk: nat)
    requires i < |fs|
    ensures Entries(fs[..i + 1], sk) == Entries(fs[..i], sk) + multiset{EntryFor(fs[i], sk)}
  {
    assert fs[..i + 1][..i] == fs[..i];
  }

  lemma EntriesNone(fs: seq<Filter>, sk: nat)
    ensures Entries(fs[..0], sk) == multiset{}
  {
  }

  function ErrFilter(errMask: CanId): seq<Filter> {
    if errMask == NONE then [] else [Filter(NONE, errMask.(err := true))]
  }

  /** The receivers a bound socket should have: one for each filter, and its error filter. */
  function Wanted(s: Sock, sk: nat): multiset<Entry> {
    Entries(s.filters, sk) + Entries(ErrFilter(s.errMask), sk)
  }

  predicate AllocsOk(allocs: seq<bool>, n: nat) {
    forall i :: 0 <= i < n && i < |allocs| ==> allocs[i]
  }

  function Later(allocs: seq<bool>, n: nat): seq<bool> {
    if n <= |allocs| then allocs[n..] else []
  }

  /** The lists of one device gain receivers; those of the others stay. */
  ghost predicate Gained(rx: RxLists, rx': RxLists, dev: nat, es: multiset<Entry>) {
    forall d :: At(rx', d) == if d == dev then At(rx, d) + es else At(rx, d)
  }

  /** The lists of one device lose receivers, as far as they are there. */
  ghost predicate Lost(rx: RxLists, rx': RxLists, dev: nat, es: multiset<Entry>) {
    forall d :: At(rx', d) == if d == dev then At(rx, d) - es else At(rx, d)
  }

  ghost predicate Same(rx: RxLists, rx': RxLists) {
    forall d :: At(rx', d) == At(rx, d)
  }

  lemma StartsSame(rx: RxLists, dev: nat)
    ensures Same(rx, rx) && Gained(rx, rx, dev, multiset{}) && Lost(rx, rx, dev, multiset{})
  {
  }

  lemma GainedMore(rx: RxLists, rx1: RxLists, rx2: RxLists, dev: nat, a: multiset<Entry>, b: multiset<Entry>)
    requires Gained(rx, rx1, dev, a) && Gained(rx1, rx2, dev, b)
    ensures Gained(rx, rx2, dev, a + b)
  {
  }

  lemma GainedThenLost(rx: RxLists, rx1: RxLists, rx2: RxLists, dev: nat, a: multiset<Entry>, b: multiset<Entry>)
    requires Gained(rx, rx1, dev, a + b) && Lost(rx1, rx2, dev, b)
    ensures Gained(rx, rx2, dev, a)
  {
    assert At(rx, dev) + (a + b) - b == At(rx, dev) + a;
  }

  lemma LostMore(rx: RxLists, rx1: RxLists, rx2: RxLists, dev: nat, a: multiset<Entry>, b: multiset<Entry>)
    requires Lost(rx, rx1, dev, a) && Lost(rx1, rx2, dev, b)
    ensures Lost(rx, rx2, dev, a + b)
  {
    hide At;
    forall d
      ensures At(rx2, d) == if d == dev then At(rx, d) - (a + b) else At(rx, d)
    {
      assert At(rx1, d) == if d == dev then At(rx, d) - a else At(rx, d);
      LessTwice(At(rx, d), a, b);
    }
  }

  lemma LessTwice(m: multiset<Entry>, a: multiset<Entry>, b: multiset<Entry>)
    ensures m - a - b == m - (a + b)
  {
  }

  lemma GainedSame(rx: RxLists, rx1: RxLists, rx2: RxLists, dev: nat, a: multiset<Entry>)
    requires Gained(rx, rx1, dev, a) && Same(rx1, rx2)
    ensures Gained(rx, rx2, dev, a)
  {
  }

  lemma GainedNothing(rx: RxLists, rx': RxLists, dev: nat)
    requires Gained(rx, rx', dev, multiset{})
    ensures Same(rx, rx')
  {
  }

  lemma GainedAllLost(rx: RxLists, rx1: RxLists, rx2: RxLists, dev: nat, a: multiset<Entry>)
    requires Gained(rx, rx1, dev, a) && Lost(rx1, rx2, dev, a)
    ensures Same(rx, rx2)
  {
  }

  // ----- what each operation does to the lists -----

  /** Whether all filters of the socket can be registered on a device. */
  predicate CanEnable(s: State, dev: nat, allocs: seq<bool>) {
    var n := |s.sock.filters| + |ErrFilter(s.sock.errMask)|;
    (n == 0 || s.Usable(dev)) && AllocsOk(allocs, n)
  }

  lemma AllocsSplit(allocs: seq<bool>, n: nat, m: nat)
    ensures AllocsOk(allocs, n + m) <==> AllocsOk(allocs, n) && AllocsOk(Later(allocs, n), m)
  {
    var later := Later(allocs, n);
    if AllocsOk(allocs, n) && AllocsOk(later, m) {
      forall i | 0 <= i < n + m && i < |allocs|
        ensures allocs[i]
      {
        if i >= n { assert later[i - n] == allocs[i]; }
      }
    }
  }

  /** Receivers appear in the lists of `to`, then others disappear from those of `from`. */
  ghost predicate Effect(rx: RxLists, rx': RxLists, to: nat, gain: multiset<Entry>, from: nat, loss: multiset<Entry>) {
    forall d ::
      At(rx', d) == At(rx, d) + (if d == to then gain else multiset{}) - (if d == from then loss else multiset{})
  }

  lemma GainedThenDropped(rx: RxLists, rx1: RxLists, rx2: RxLists, to: nat, from: nat,
                          gain: multiset<Entry>, loss: multiset<Entry>)
    requires Gained(rx, rx1, to, gain)
    requires Lost(rx1, rx2, from, loss) || (loss == multiset{} && rx2 == rx1)
    ensures Effect(rx, rx2, to, gain, from, loss)
  {
  }

  /** A failed operation leaves the socket and every list as they were. */
  ghost predicate Failed(s: State, s': State) {
    s' == s.(rx := s'.rx) && Same(s.rx, s'.rx)
  }

  /** What rebinding removes: nothing if the old device is no longer found. */
  function Dropped(s: State, sk: nat): multiset<Entry> {
    if s.sock.bound && s.Found() then Wanted(s.sock, sk) else multiset{}
  }

  ghost predicate BindStep(s: State, s': State, target: nat, sk: nat) {
    && (s.sock.bound ==> s.sock.ifindex != target)
    && s' == s.(rx := s'.rx, sock := s.sock.(bound := true, ifindex := target))
    && Effect(s.rx, s'.rx, target, Wanted(s.sock, sk), s.sock.ifindex, Dropped(s, sk))
  }

  /** On a bound socket new receivers are registered, then the old ones go, on one device. */
  ghost predicate ReplaceStep(s: State, s': State, sock: Sock, gain: multiset<Entry>, loss: multiset<Entry>) {
    && s' == s.(rx := s'.rx, sock := sock)
    && if s.sock.bound then Effect(s.rx, s'.rx, s.FilterDev(), gain, s.FilterDev(), loss) else s'.rx == s.rx
  }

  ghost predicate FiltersStep(s: State, s': State, fs: seq<Filter>, sk: nat) {
    ReplaceStep(s, s', s.sock.(filters := fs), Entries(fs, sk), Entries(s.sock.filters, sk))
  }

  ghost predicate ErrStep(s: State, s': State, errMask: CanId, sk: nat) {
    ReplaceStep(s, s', s.sock.(errMask := errMask),
                Entries(ErrFilter(errMask), sk), Entries(ErrFilter(s.sock.errMask), sk))
  }

  /** The socket unbinds and forgets its filters; `clean` says its receivers are removed. */
  ghost predicate LeaveStep(s: State, s': State, clean: bool, sk: nat) {
    && s' == s.(rx := s'.rx, sock := Sock(false, 0, [], s.sock.errMask))
    && if clean then Lost(s.rx, s'.rx, s.sock.ifindex, Wanted(s.sock, sk)) else s'.rx == s.rx
  }

  // ----- the socket's methods -----

  class RawSock {
    const sk: nat
    var st: State
    var allocs: seq<bool>    // the outcomes of the allocations to come; true past the end

    constructor (st: State, allocs: seq<bool>, sk: nat)
      ensures this.st == st && this.allocs == allocs && this.sk == sk
    {
      this.st, this.allocs, this.sk := st, allocs, sk;
    }

    /** `can_rx_register`. */
    method Register(dev: nat, f: Filter) returns (err: int)
      requires st.Valid()
      modifies this`st, this`allocs
      ensures st == old(st).(rx := st.rx) && st.Valid() && st.rx.Keys == old(st).rx.Keys
      ensures err == 0 <==> old(st).Usable(dev) && AllocsOk(old(allocs), 1)
      ensures if err == 0 then Gained(old(st).rx, st.rx, dev, multiset{EntryFor(f, sk)}) else Same(old(st).rx, st.rx)
      ensures err == 0 ==> allocs == Later(old(allocs), 1)
    {
      if dev != 0 && dev !in st.canDevs { return -ENODEV; }
      var ok := |allocs| == 0 || allocs[0];
      allocs := if |allocs| == 0 then [] else allocs[1..];
      if !ok { return -ENOMEM; }
      if dev !in st.rx { return -ENODEV; }
      st := st.(rx := st.rx[dev := st.rx[dev] + multiset{EntryFor(f, sk)}]);
      err := 0;
    }

    /** `can_rx_unregister`: one equal entry goes, and emptied lists of a removed device are freed. */
    method Unregister(dev: nat, f: Filter)
      requires st.Valid()
      modifies this`st
      ensures st == old(st).(rx := st.rx) && st.Valid()
      ensures Lost(old(st).rx, st.rx, dev, multiset{EntryFor(f, sk)})
    {
      hide EntryFor;
      if dev != 0 && dev !in st.canDevs { return; }
      if dev !in st.rx { return; }
      var e, had := EntryFor(f, sk), st.rx[dev];
      if e !in had { return; }
      st := st.(rx := st.rx[dev := had - multiset{e}]);
      if dev in st.removing && st.rx[dev] == multiset{} {
        st := st.(rx := st.rx - {dev});
      }
    }

    /** `raw_enable_filters`: all of them or none. */
    method EnableFilters(dev: nat, fs: seq<Filter>) returns (err: int)
      requires st.Valid()
      modifies this`st, this`allocs
      ensures st == old(st).(rx := st.rx) && st.Valid()
      ensures err == 0 <==> (fs == [] || old(st).Usable(dev)) && AllocsOk(old(allocs), |fs|)
      ensures if err == 0 then Gained(old(st).rx, st.rx, dev, Entries(fs, sk)) else Same(old(st).rx, st.rx)
      ensures err == 0 ==> allocs == Later(old(allocs), |fs|) && st.rx.Keys == old(st).rx.Keys
    {
      hide Entries, EntryFor, Gained, Lost, Same, At;
      err := 0;
      var i := 0;
      EntriesNone(fs, sk);
      StartsSame(st.rx, dev);
      while i < |fs|
        invariant 0 <= i <= |fs| && err == 0
        invariant st == old(st).(rx := st.rx) && st.Valid() && st.rx.Keys == old(st).rx.Keys
        invariant Gained(old(st).rx, st.rx, dev, Entries(fs[..i], sk))
        invariant allocs == Later(old(allocs), i) && AllocsOk(old(allocs), i)
        invariant i > 0 ==> st.Usable(dev)
      {
        ghost var rx := st.rx;
        err := Register(dev, fs[i]);
        if err != 0 {
          GainedSame(old(st).rx, rx, st.rx, dev, Entries(fs[..i], sk));
          Rollback(dev, fs, i, old(st).rx);
          return;
        }
        EntriesNext(fs, i, sk);
        GainedMore(old(st).rx, rx, st.rx, dev, Entries(fs[..i], sk), multiset{EntryFor(fs[i], sk)});
        i := i + 1;
      }
      assert fs[..|fs|] == fs;
    }

    /** Takes the first `n` filters out again, last one first. */
    method Rollback(dev: nat, fs: seq<Filter>, n: nat, ghost rx: RxLists)
      requires st.Valid() && n <= |fs| && Gained(rx, st.rx, dev, Entries(fs[..n], sk))
      modifies this`st
      ensures st == old(st).(rx := st.rx) && st.Valid() && Same(rx, st.rx)
    {
      hide Entries, EntryFor, Gained, Lost, Same, At;
      var i := n;
      while i > 0
        invariant 0 <= i <= n
        invariant st == old(st).(rx := st.rx) && st.Valid()
        invariant Gained(rx, st.rx, dev, Entries(fs[..i], sk))
      {
        i := i - 1;
        EntriesNext(fs, i, sk);
        ghost var rx1 := st.rx;
        Unregister(dev, fs[i]);
        GainedThenLost(rx, rx1, st.rx, dev, Entries(fs[..i], sk), multiset{EntryFor(fs[i], sk)});
      }
      EntriesNone(fs, sk);
      GainedNothing(rx, st.rx, dev);
    }

    /** `raw_disable_filters`. */
    method DisableFilters(dev: nat, fs: seq<Filter>)
      requires st.Valid()
      modifies this`st
      ensures st == old(st).(rx := st.rx) && st.Valid()
      ensures Lost(old(st).rx, st.rx, dev, Entries(fs, sk))
    {
      hide Entries, EntryFor, Gained, Lost, Same, At;
      var i := 0;
      EntriesNone(fs, sk);
      StartsSame(st.rx, dev);
      while i < |fs|
        invariant 0 <= i <= |fs|
        invariant st == old(st).(rx := st.rx) && st.Valid()
        invariant Lost(old(st).rx, st.rx, dev, Entries(fs[..i], sk))
      {
        EntriesNext(fs, i, sk);
        ghost var rx1 := st.rx;
        Unregister(dev, fs[i]);
        LostMore(old(st).rx, rx1, st.rx, dev, Entries(fs[..i], sk), multiset{EntryFor(fs[i], sk)});
        i := i + 1;
      }
      assert fs[..|fs|] == fs;
    }

    /** `raw_enable_allfilters`: the filters and the error filter, or neither. */
    method EnableAll(dev: nat) returns (err: int)
      requires st.Valid()
      modifies this`st, this`allocs
      ensures st == old(st).(rx := st.rx) && st.Valid()
      ensures err == 0 <==> CanEnable(old(st), dev, old(allocs))
      ensures if err == 0 then Gained(old(st).rx, st.rx, dev, Wanted(old(st).sock, sk)) else Same(old(st).rx, st.rx)
    {
      hide Entries, EntryFor, Gained, Lost, Same, At;
      var fs, es := st.sock.filters, ErrFilter(st.sock.errMask);
      err := EnableFilters(dev, fs);
      if err == 0 {
        ghost var rx := st.rx;
        assert AllocsOk(old(allocs), |fs| + |es|) <==> AllocsOk(allocs, |es|) by {
          AllocsSplit(old(allocs), |fs|, |es|);
        }
        err := EnableFilters(dev, es);
        if err == 0 {
          GainedMore(old(st).rx, rx, st.rx, dev, Entries(fs, sk), Entries(es, sk));
        } else {
          ghost var rx1 := st.rx;
          DisableFilters(dev, fs);
          GainedSame(old(st).rx, rx, rx1, dev, Entries(fs, sk));
          GainedAllLost(old(st).rx, rx1, st.rx, dev, Entries(fs, sk));
        }
      } else {
        AllocsSplit(old(allocs), |fs|, |es|);
      }
    }

    /** `raw_disable_allfilters`. */
    method DisableAll(dev: nat)
      requires st.Valid()
      modifies this`st
      ensures st == old(st).(rx := st.rx) && st.Valid()
      ensures Lost(old(st).rx, st.rx, dev, Wanted(old(st).sock, sk))
    {
      hide Entries, EntryFor, Gained, Lost, Same, At;
      DisableFilters(dev, st.sock.filters);
      ghost var rx := st.rx;
      DisableFilters(dev, ErrFilter(st.sock.errMask));
      LostMore(old(st).rx, rx, st.rx, dev, Entries(st.sock.filters, sk), Entries(ErrFilter(st.sock.errMask), sk));
    }

    method Bind(target: nat) returns (ret: int)
      requires st.Valid()
      modifies this
      ensures st.Valid()
      ensures ret != 0 ==> Failed(old(st), st)
      ensures ret == 0 ==>
        (st == old(st) && st.sock.bound && st.sock.ifindex == target) || BindStep(old(st), st, target, sk)
      ensures ret == 0 <==>
        (old(st.sock.bound && st.sock.ifindex == target) ||
         (CanEnable(old(st), target, old(allocs)) &&
          (target == 0 || (target in old(st).listed && target in old(st).canDevs))))
    {
      hide Entries, EntryFor, Gained, Lost, Same, At, Wanted, CanEnable;
      StartsSame(st.rx, 0);
      ret := 0;
      if st.sock.bound && target == st.sock.ifindex { return; }
      if target != 0 {
        if target !in st.listed { return -ENODEV; }
        if target !in st.canDevs { return -ENODEV; }
      }
      ret := EnableAll(target);
      if ret == 0 {
        ghost var rx := st.rx;
        if st.sock.bound {
          if st.sock.ifindex != 0 {
            if st.sock.ifindex in st.listed { DisableAll(st.sock.ifindex); }
          } else {
            DisableAll(0);
          }
        }
        GainedThenDropped(old(st).rx, rx, st.rx, target, old(st).sock.ifindex, Wanted(old(st).sock, sk),
                          Dropped(old(st), sk));
        st := st.(sock := st.sock.(ifindex := target, bound := true));
      }
    }

    /** `CAN_RAW_FILTER`. */
    method SetFilters(fs: seq<Filter>) returns (err: int)
      requires st.Valid()
      modifies this
      ensures st.Valid()
      ensures err != 0 ==> Failed(old(st), st)
      ensures err == 0 ==> FiltersStep(old(st), st, fs, sk)
      ensures err == 0 <==>
        !old(st.sock.bound) || ((fs == [] || old(st).Usable(old(st).FilterDev())) && AllocsOk(old(allocs), |fs|))
    {
      hide Entries, EntryFor, Gained, Lost, Same, At;
      StartsSame(st.rx, 0);
      err := 0;
      var dev := st.FilterDev();
      if st.sock.bound {
        err := EnableFilters(dev, fs);
        if err != 0 { return; }
        ghost var rx := st.rx;
        DisableFilters(dev, st.sock.filters);
        GainedThenDropped(old(st).rx, rx, st.rx, dev, dev, Entries(fs, sk), Entries(st.sock.filters, sk));
      }
      st := st.(sock := st.sock.(filters := fs));
    }

    /** `CAN_RAW_ERR_FILTER`. */
    method SetErrFilter(mask: CanId) returns (err: int)
      requires st.Valid()
      modifies this
      ensures st.Valid()
      ensures err != 0 ==> Failed(old(st), st)
      ensures err == 0 ==> ErrStep(old(st), st, And(mask, ERR_MASK), sk)
      ensures var n := |ErrFilter(And(mask, ERR_MASK))|;
        err == 0 <==>
          !old(st.sock.bound) || ((n == 0 || old(st).Usable(old(st).FilterDev())) && AllocsOk(old(allocs), n))
    {
      hide Entries, EntryFor, Gained, Lost, Same, At;
      StartsSame(st.rx, 0);
      var m := And(mask, ERR_MASK);
      err := 0;
      var dev := st.FilterDev();
      if st.sock.bound {
        err := EnableFilters(dev, ErrFilter(m));
        if err != 0 { return; }
        ghost var rx := st.rx;
        DisableFilters(dev, ErrFilter(st.sock.errMask));
        GainedThenDropped(old(st).rx, rx, st.rx, dev, dev, Entries(ErrFilter(m), sk),
                          Entries(ErrFilter(st.sock.errMask), sk));
      }
      st := st.(sock := st.sock.(errMask := m));
    }

    /** `raw_notifier` on NETDEV_UNREGISTER. The error mask stays. */
    method NotifyUnregister(dev: nat)
      requires st.Valid()
      modifies this
      ensures st.Valid()
      ensures if old(st.sock.ifindex) != dev then st == old(st) else LeaveStep(old(st), st, old(st.sock.bound), sk)
    {
      hide Entries, EntryFor, Gained, Lost, Same, At, Wanted;
      StartsSame(st.rx, dev);
      if st.sock.ifindex != dev { return; }
      if st.sock.bound { DisableAll(dev); }
      st := st.(sock := Sock(false, 0, [], st.sock.errMask));
    }

    method Release()
      requires st.Valid()
      modifies this
      ensures st.Valid()
      ensures LeaveStep(old(st), st, old(st.sock.bound && st.Found()), sk)
    {
      hide Entries, EntryFor, Gained, Lost, Same, At, Wanted;
      StartsSame(st.rx, st.sock.ifindex);
      if st.sock.bound {
        if st.sock.ifindex != 0 {
          if st.sock.ifindex in st.listed { DisableAll(st.sock.ifindex); }
        } else {
          DisableAll(0);
        }
      }
      st := st.(sock := Sock(false, 0, [], st.sock.errMask));
    }
  }

  // ----- the books balance -----

  predicate Mine(e: Entry, sk: nat) {
    e.receiver.data == sk && e.receiver.func == RAW_RCV
  }

  /** The socket's entries on device `d` are its wanted receivers if it is bound there, else none. */
  ghost predicate OwnsAt(s: State, d: nat, sk: nat) {
    forall e :: Mine(e, sk) ==>
      At(s.rx, d)[e] == if s.sock.bound && s.sock.ifindex == d then Wanted(s.sock, sk)[e] else 0
  }

  ghost predicate Consistent(s: State, sk: nat) {
    forall d: nat :: OwnsAt(s, d, sk)
  }

  lemma {:induction false} EntriesMine(fs: seq<Filter>, sk: nat)
    ensures forall e :: e in Entries(fs, sk) ==> Mine(e, sk)
  {
    if fs != [] {
      EntriesMine(fs[..|fs| - 1], sk);
    }
  }

  /** Rebinding keeps the books exactly when the old device is still found (or nothing was wanted). */
  lemma RebindExact(s: State, s': State, target: nat, sk: nat)
    requires Consistent(s, sk) && BindStep(s, s', target, sk)
    ensures Consistent(s', sk) <==> s.Found() || Wanted(s.sock, sk) == multiset{}
  {
    EntriesMine(s.sock.filters, sk);
    EntriesMine(ErrFilter(s.sock.errMask), sk);
    hide Entries, ErrFilter, Mine;
    var w := Wanted(s.sock, sk);
    assert Wanted(s'.sock, sk) == w;
    forall d: nat
      ensures (s.Found() || w == multiset{}) ==> OwnsAt(s', d, sk)
    {
      assert OwnsAt(s, d, sk);
    }
    if !s.Found() && w != multiset{} {
      var e :| e in w;
      assert OwnsAt(s, s.sock.ifindex, sk);
      assert !OwnsAt(s', s.sock.ifindex, sk);
    }
  }

  /** A replacement of a part of a socket's receivers: `rest` stays, `loss` turns into `gain`. */
  ghost predicate Replacement(s: State, sock: Sock, rest: multiset<Entry>, gain: multiset<Entry>,
                              loss: multiset<Entry>, sk: nat) {
    && sock.bound == s.sock.bound && sock.ifindex == s.sock.ifindex
    && Wanted(s.sock, sk) == rest + loss && Wanted(sock, sk) == rest + gain
    && forall e :: e in gain || e in loss ==> Mine(e, sk)
  }

  lemma ReplaceKeepsAt(s: State, s': State, sock: Sock, rest: multiset<Entry>, gain: multiset<Entry>,
                       loss: multiset<Entry>, sk: nat, d: nat)
    requires OwnsAt(s, d, sk) && ReplaceStep(s, s', sock, gain, loss)
    requires Replacement(s, sock, rest, gain, loss, sk)
    requires s.Found() || gain == loss
    ensures OwnsAt(s', d, sk)
  {
    hide Wanted, Mine;
    forall e | Mine(e, sk)
      ensures At(s'.rx, d)[e] == if s'.sock.bound && s'.sock.ifindex == d then Wanted(s'.sock, sk)[e] else 0
    {
      assert At(s.rx, d)[e] == if s.sock.bound && s.sock.ifindex == d then Wanted(s.sock, sk)[e] else 0;
    }
  }

  lemma ReplaceBreaks(s: State, s': State, sock: Sock, rest: multiset<Entry>, gain: multiset<Entry>,
                      loss: multiset<Entry>, sk: nat)
    requires OwnsAt(s, s.sock.ifindex, sk) && ReplaceStep(s, s', sock, gain, loss)
    requires Replacement(s, sock, rest, gain, loss, sk)
    requires !s.Found() && gain != loss
    ensures !OwnsAt(s', s.sock.ifindex, sk)
  {
    hide Wanted, Mine;
    SameCounts(gain, loss);
    var e :| gain[e] != loss[e];
    assert Mine(e, sk);
    assert At(s'.rx, s.sock.ifindex)[e] == At(s.rx, s.sock.ifindex)[e];
  }

  lemma SameCounts(a: multiset<Entry>, b: multiset<Entry>)
    ensures (forall e :: a[e] == b[e]) ==> a == b
  {
  }

  /**
   Replacing a part of a bound socket's receivers keeps the books exactly when its device is still
   found (or the new ones are the old ones): otherwise the change goes to the all-devices lists.
   */
  lemma ReplaceExact(s: State, s': State, sock: Sock, rest: multiset<Entry>, gain: multiset<Entry>,
                     loss: multiset<Entry>, sk: nat)
    requires Consistent(s, sk) && ReplaceStep(s, s', sock, gain, loss)
    requires Replacement(s, sock, rest, gain, loss, sk)
    ensures Consistent(s', sk) <==> s.Found() || gain == loss
  {
    hide Wanted, Mine, ReplaceStep, OwnsAt, Replacement;
    if s.Found() || gain == loss {
      forall d: nat
        ensures OwnsAt(s', d, sk)
      {
        ReplaceKeepsAt(s, s', sock, rest, gain, loss, sk, d);
      }
    } else {
      ReplaceBreaks(s, s', sock, rest, gain, loss, sk);
    }
  }

  lemma FiltersExact(s: State, s': State, fs: seq<Filter>, sk: nat)
    requires Consistent(s, sk) && FiltersStep(s, s', fs, sk)
    ensures Consistent(s', sk) <==> s.Found() || Entries(fs, sk) == Entries(s.sock.filters, sk)
  {
    EntriesMine(fs, sk);
    EntriesMine(s.sock.filters, sk);
    ReplaceExact(s, s', s.sock.(filters := fs), Entries(ErrFilter(s.sock.errMask), sk),
                 Entries(fs, sk), Entries(s.sock.filters, sk), sk);
  }

  lemma ErrExact(s: State, s': State, errMask: CanId, sk: nat)
    requires Consistent(s, sk) && ErrStep(s, s', errMask, sk)
    ensures Consistent(s', sk) <==>
            s.Found() || Entries(ErrFilter(errMask), sk) == Entries(ErrFilter(s.sock.errMask), sk)
  {
    EntriesMine(ErrFilter(errMask), sk);
    EntriesMine(ErrFilter(s.sock.errMask), sk);
    ReplaceExact(s, s', s.sock.(errMask := errMask), Entries(s.sock.filters, sk),
                 Entries(ErrFilter(errMask), sk), Entries(ErrFilter(s.sock.errMask), sk), sk);
  }

  /** Leaving keeps the books exactly when it removes the receivers (or there are none). */
  lemma LeaveExact(s: State, s': State, clean: bool, sk: nat)
    requires Consistent(s, sk) && LeaveStep(s, s', clean, sk)
    requires clean ==> s.sock.bound
    ensures Consistent(s', sk) <==> clean || !s.sock.bound || Wanted(s.sock, sk) == multiset{}
  {
    EntriesMine(s.sock.filters, sk);
    EntriesMine(ErrFilter(s.sock.errMask), sk);
    hide Entries, ErrFilter, Mine;
    var w := Wanted(s.sock, sk);
    forall d: nat
      ensures (clean || !s.sock.bound || w == multiset{}) ==> OwnsAt(s', d, sk)
    {
      assert OwnsAt(s, d, sk);
    }
    if !clean && s.sock.bound && w != multiset{} {
      var e :| e in w;
      assert OwnsAt(s, s.sock.ifindex, sk);
      assert !OwnsAt(s', s.sock.ifindex, sk);
    }
  }

  // ----- every run -----

  /** Some operation of the socket `sk`, made in whatever circumstances. */
  ghost predicate SomeStep(s: State, s': State, sk: nat) {
    || (exists target: nat :: BindStep(s, s', target, sk))
    || (exists fs :: FiltersStep(s, s', fs, sk))
    || (exists errMask :: ErrStep(s, s', errMask, sk))
    || (exists clean :: LeaveStep(s, s', clean, sk))
  }

  /** Another protocol registers or unregisters receivers of its own on one device. */
  ghost predicate OtherProtocol(rx: RxLists, rx': RxLists, dev: nat, es: multiset<Entry>) {
    (Gained(rx, rx', dev, es) || Lost(rx, rx', dev, es)) && forall e :: e in es ==> e.receiver.func != RAW_RCV
  }

  /** Devices come and go, other protocols act, or another raw socket does, with fields of its own. */
  ghost predicate OthersStep(s: State, s': State, sk: nat) {
    s'.sock == s.sock &&
    ( || Same(s.rx, s'.rx)
      || (exists dev: nat, es :: OtherProtocol(s.rx, s'.rx, dev, es))
      || (exists t: State, t': State, other: nat ::
            other != sk && t.rx == s.rx && t'.rx == s'.rx && SomeStep(t, t', other)))
  }

  /** None of the entries are the socket's. */
  predicate NotMine(es: multiset<Entry>, sk: nat) { forall e :: e in es ==> !Mine(e, sk) }

  /** The socket has the same entries on every device. */
  ghost predicate SameMine(rx: RxLists, rx': RxLists, sk: nat) {
    forall d: nat, e :: Mine(e, sk) ==> At(rx', d)[e] == At(rx, d)[e]
  }

  lemma NotMineUnchanged(rx: RxLists, rx': RxLists, to: nat, gain: multiset<Entry>,
                         from: nat, loss: multiset<Entry>, sk: nat)
    requires NotMine(gain, sk) && NotMine(loss, sk)
    requires Effect(rx, rx', to, gain, from, loss) || Gained(rx, rx', to, gain) || Lost(rx, rx', from, loss)
    ensures SameMine(rx, rx', sk)
  {
    hide Mine;
  }

  lemma OthersEntries(fs: seq<Filter>, other: nat, sk: nat)
    requires other != sk
    ensures NotMine(Entries(fs, other), sk)
  {
    EntriesMine(fs, other);
  }

  /** What another socket does leaves this one's receivers alone. */
  lemma SomeStepElsewhere(s: State, s': State, other: nat, sk: nat)
    requires SomeStep(s, s', other) && other != sk
    ensures SameMine(s.rx, s'.rx, sk)
  {
    var mine, errs := Entries(s.sock.filters, other), Entries(ErrFilter(s.sock.errMask), other);
    OthersEntries(s.sock.filters, other, sk);
    OthersEntries(ErrFilter(s.sock.errMask), other, sk);
    hide Effect, Entries, ErrFilter, Mine;
    assert NotMine(Wanted(s.sock, other), sk);
    if exists target: nat :: BindStep(s, s', target, other) {
      var target: nat :| BindStep(s, s', target, other);
      NotMineUnchanged(s.rx, s'.rx, target, Wanted(s.sock, other), s.sock.ifindex, Dropped(s, other), sk);
    } else if exists fs :: FiltersStep(s, s', fs, other) {
      var fs :| FiltersStep(s, s', fs, other);
      OthersEntries(fs, other, sk);
      if s.sock.bound {
        NotMineUnchanged(s.rx, s'.rx, s.FilterDev(), Entries(fs, other), s.FilterDev(), mine, sk);
      }
    } else if exists errMask :: ErrStep(s, s', errMask, other) {
      var errMask :| ErrStep(s, s', errMask, other);
      OthersEntries(ErrFilter(errMask), other, sk);
      if s.sock.bound {
        NotMineUnchanged(s.rx, s'.rx, s.FilterDev(), Entries(ErrFilter(errMask), other), s.FilterDev(), errs, sk);
      }
    } else {
      var clean :| LeaveStep(s, s', clean, other);
      if clean {
        NotMineUnchanged(s.rx, s'.rx, 0, multiset{}, s.sock.ifindex, Wanted(s.sock, other), sk);
      }
    }
  }

  lemma OthersLeaveAlone(s: State, s': State, sk: nat)
    requires OthersStep(s, s', sk)
    ensures SameMine(s.rx, s'.rx, sk)
  {
    hide SomeStep, Gained, Lost;
    if Same(s.rx, s'.rx) {
    } else if exists dev: nat, es :: OtherProtocol(s.rx, s'.rx, dev, es) {
      var dev: nat, es :| OtherProtocol(s.rx, s'.rx, dev, es);
      NotMineUnchanged(s.rx, s'.rx, dev, es, dev, es, sk);
    } else {
      var t: State, t': State, other: nat :|
        other != sk && t.rx == s.rx && t'.rx == s'.rx && SomeStep(t, t', other);
      SomeStepElsewhere(t, t', other, sk);
    }
  }

  /** What a step of a run is; `clean` says that leaving removes the receivers. */
  datatype Op = Bind(target: nat) | Filters(fs: seq<Filter>) | Errors(errMask: CanId) | Leave(clean: bool)
              | Failure | Others

  /** A successful operation of the socket, a failed one, or something else. */
  ghost predicate Does(s: State, op: Op, s': State, sk: nat) {
    match op
    case Bind(target) => BindStep(s, s', target, sk)
    case Filters(fs) => FiltersStep(s, s', fs, sk)
    case Errors(errMask) => ErrStep(s, s', errMask, sk)
    case Leave(clean) => (clean ==> s.sock.bound) && LeaveStep(s, s', clean, sk)
    case Failure => Failed(s, s')
    case Others => OthersStep(s, s', sk)
  }

  /** The bound device is found, the receivers go with the socket, or it makes no difference. */
  predicate Orderly(s: State, op: Op, sk: nat) {
    match op
    case Bind(_) => s.Found() || Wanted(s.sock, sk) == multiset{}
    case Filters(fs) => s.Found() || Entries(fs, sk) == Entries(s.sock.filters, sk)
    case Errors(errMask) => s.Found() || Entries(ErrFilter(errMask), sk) == Entries(ErrFilter(s.sock.errMask), sk)
    case Leave(clean) => clean || !s.sock.bound || Wanted(s.sock, sk) == multiset{}
    case _ => true
  }

  lemma SameMineKeeps(s: State, s': State, sk: nat)
    requires Consistent(s, sk) && s'.sock == s.sock && SameMine(s.rx, s'.rx, sk)
    ensures Consistent(s', sk)
  {
    hide Mine, Wanted;
    forall d: nat
      ensures OwnsAt(s', d, sk)
    {
      assert OwnsAt(s, d, sk);
    }
  }

  /** Every step keeps the books exactly when it is orderly. */
  lemma StepExact(s: State, op: Op, s': State, sk: nat)
    requires Consistent(s, sk) && Does(s, op, s', sk)
    ensures Consistent(s', sk) <==> Orderly(s, op, sk)
  {
    hide Consistent, OthersStep, BindStep, FiltersStep, ErrStep, LeaveStep, Mine, Wanted, Entries;
    match op
    case Bind(target) => RebindExact(s, s', target, sk);
    case Filters(fs) => FiltersExact(s, s', fs, sk);
    case Errors(errMask) => ErrExact(s, s', errMask, sk);
    case Leave(clean) => LeaveExact(s, s', clean, sk);
    case Failure => SameMineKeeps(s, s', sk);
    case Others =>
      OthersLeaveAlone(s, s', sk);
      OthersSock(s, s', sk);
      SameMineKeeps(s, s', sk);
  }

  lemma OthersSock(s: State, s': State, sk: nat)
    requires OthersStep(s, s', sk)
    ensures s'.sock == s.sock
  {
    hide SomeStep, OtherProtocol;
  }

  ghost predicate IsRun(run: seq<State>, ops: seq<Op>, sk: nat) {
    |run| == |ops| + 1 && forall i :: 0 <= i < |ops| ==> Does(run[i], ops[i], run[i + 1], sk)
  }

  /**
   Over every run, whatever fails on the way and whoever else acts, a socket that starts with the books
   in order owns exactly the receivers it should all along, if and only if every step is orderly.
   */
  lemma BooksBalance(run: seq<State>, ops: seq<Op>, sk: nat)
    requires IsRun(run, ops, sk) && Consistent(run[0], sk)
    ensures (forall i :: 0 <= i < |run| ==> Consistent(run[i], sk))
            <==> (forall i :: 0 <= i < |ops| ==> Orderly(run[i], ops[i], sk))
  {
    hide Consistent, Does, Orderly;
    if forall i :: 0 <= i < |run| ==> Consistent(run[i], sk) {
      forall i | 0 <= i < |ops|
        ensures Orderly(run[i], ops[i], sk)
      {
        StepExact(run[i], ops[i], run[i + 1], sk);
      }
    }
    if forall i :: 0 <= i < |ops| ==> Orderly(run[i], ops[i], sk) {
      forall i | 0 <= i < |run|
        ensures Consistent(run[i], sk)
      {
        BalancedAt(run, ops, sk, i);
      }
    }
  }

  lemma {:induction false} BalancedAt(run: seq<State>, ops: seq<Op>, sk: nat, i: nat)
    requires i < |run| && IsRun(run, ops, sk) && Consistent(run[0], sk)
    requires forall k :: 0 <= k < |ops| ==> Orderly(run[k], ops[k], sk)
    ensures Consistent(run[i], sk)
  {
    hide Consistent, Does, Orderly;
    if i > 0 {
      BalancedAt(run, ops, sk, i - 1);
      StepExact(run[i - 1], ops[i - 1], run[i], sk);
    }
  }

  // ----- which frames a socket gets -----

  /** The entry registered for a filter receives exactly the frames the filter selects. */
  lemma FilterEntry(f: Filter, sk: nat, frame: CanId)
    ensures Delivers(EntryFor(f, sk), frame) <==> Selects(f.canId, f.mask, frame)
    ensures Mine(EntryFor(f, sk), sk)
  {
    IndexIsRule(f.canId, f.mask, frame, RAW_RCV, sk);
  }

  /** An error mask gets one entry if it is not empty, for the error frames that have one of its bits. */
  lemma ErrFilterEntry(errMask: CanId, sk: nat, frame: CanId)
    ensures errMask == NONE <==> ErrFilter(errMask) == []
    ensures errMask != NONE ==>
      && |ErrFilter(errMask)| == 1 && ErrFilter(errMask)[0].canId == NONE
      && (Delivers(EntryFor(ErrFilter(errMask)[0], sk), frame) <==> frame.err && frame.bits * errMask.bits != {})
  {
    if errMask != NONE { FilterEntry(ErrFilter(errMask)[0], sk, frame); }
  }

  /** The filters that select a frame. */
  function Hits(fs: seq<Filter>, frame: CanId): (hs: seq<Filter>) {
    if fs == [] then []
    else
      var f, hs := fs[|fs| - 1], Hits(fs[..|fs| - 1], frame);
      if Selects(f.canId, f.mask, frame) then hs + [f] else hs
  }

  lemma {:induction false} HitsDelivered(fs: seq<Filter>, sk: nat, frame: CanId, e: Entry)
    ensures Entries(Hits(fs, frame), sk)[e] == if Delivers(e, frame) then Entries(fs, sk)[e] else 0
  {
    hide Delivers, Selects, EntryFor;
    if fs == [] {
    } else {
      var front, f := fs[..|fs| - 1], fs[|fs| - 1];
      HitsDelivered(front, sk, frame, e);
      FilterEntry(f, sk, frame);
      var hs := Hits(front, frame);
      assert (hs + [f])[..|hs|] == hs;
    }
  }

  /**
   For a bound socket with its books in order, what it gets of a frame out of the lists of its device is
   one delivery for each of its filters that selects the frame, and one for the error filter.
   */
  lemma SocketDeliveries(s: State, sk: nat, frame: CanId, delivered: multiset<Entry>)
    requires Consistent(s, sk) && s.sock.bound && DeliveredFrom(delivered, At(s.rx, s.sock.ifindex), frame)
    ensures var hits, errors := Hits(s.sock.filters, frame), Hits(ErrFilter(s.sock.errMask), frame);
            var mine := Entries(hits, sk) + Entries(errors, sk);
            && |mine| == |hits| + |errors| && mine <= delivered && NotMine(delivered - mine, sk)
            && |errors| == if frame.err && frame.bits * s.sock.errMask.bits != {} then 1 else 0
  {
    var fs, es := s.sock.filters, ErrFilter(s.sock.errMask);
    var hits, errors := Hits(fs, frame), Hits(es, frame);
    var mine := Entries(hits, sk) + Entries(errors, sk);
    ErrorHits(s.sock.errMask, frame);
    assert OwnsAt(s, s.sock.ifindex, sk);
    EntriesMine(hits, sk);
    EntriesMine(errors, sk);
    hide Delivers, Selects, Hits, Entries, ErrFilter, Mine;
    forall e | Mine(e, sk)
      ensures delivered[e] == mine[e]
    {
      HitsDelivered(fs, sk, frame, e);
      HitsDelivered(es, sk, frame, e);
    }
    forall e
      ensures mine[e] <= delivered[e]
    {
      if !Mine(e, sk) { assert e !in Entries(hits, sk) && e !in Entries(errors, sk); }
    }
  }

  lemma ErrorHits(errMask: CanId, frame: CanId)
    ensures |Hits(ErrFilter(errMask), frame)| == if frame.err && frame.bits * errMask.bits != {} then 1 else 0
  {
    var es := ErrFilter(errMask);
    if errMask == NONE {
      assert es == [];
    } else {
      assert es[..0] == [];
    }
  }

  /** In the window between unlisting a device and its notifier, a new filter goes astray. */
  lemma WindowExample(sk: nat)
    ensures exists s: State, s': State, fs ::
      s.Valid() && Consistent(s, sk) && FiltersStep(s, s', fs, sk) && !s.Found() && !Consistent(s', sk)
  {
    var s := State(map[0 := multiset{}, 3 := multiset{}], {}, {3}, {}, Sock(true, 3, [], NONE));
    var f := Filter(NONE, NONE);
    var es := Entries([f], sk);
    var s' := s.(rx := s.rx[0 := es], sock := s.sock.(filters := [f]));
    forall d: nat
      ensures OwnsAt(s, d, sk)
    {
    }
    assert FiltersStep(s, s', [f], sk) && s.Valid();
    FiltersExact(s, s', [f], sk);
    assert |es| == 1;
  }
}
