/**
 The PF_CAN receive dispatcher: subscriptions are sorted into specialised lists, and a
 frame visits only the lists that can hold a match. Everything is judged against the plain
 rule that the interface documents: a linear scan over mask/value filters.
 */
module Dispatcher {

  /** The 29 identifier bits of a `canid_t`, as the set of positions that are 1; `&` is `*`. */
  type Bits = b: set<nat> | forall i :: i in b ==> i < 29 witness {}

  const SFF_BITS: Bits := set i: nat | i < 11
  const ALL_BITS: Bits := set i: nat | i < 29

  /**
   The 32 bits of a `canid_t`: bit 31 (extended frame), bit 30 (remote request), bit 29 and the
   identifier. Bit 29 marks error frames; in the id of a filter it asks for inversion.
   */
  datatype CanId = CanId(eff: bool, rtr: bool, err: bool, bits: Bits)

  function And(a: CanId, b: CanId): CanId {
    CanId(a.eff && b.eff, a.rtr && b.rtr, a.err && b.err, a.bits * b.bits)
  }

  const NONE := CanId(false, false, false, {})
  const SFF_EFF_RTR := CanId(true, true, false, SFF_BITS)   // CAN_SFF_MASK | CAN_EFF_RTR_FLAGS
  const ALL_EFF_RTR := CanId(true, true, false, ALL_BITS)   // CAN_EFF_MASK | CAN_EFF_RTR_FLAGS
  const ERR_MASK := CanId(false, false, false, ALL_BITS)

  // ----- the documented rule -----

  /** A standard-frames-only filter ignores mask bits beyond the standard identifier. */
  function EffectiveMask(canId: CanId, mask: CanId): CanId {
    if mask.eff && !canId.eff then CanId(mask.eff, mask.rtr, false, mask.bits * SFF_BITS) else mask
  }

  /** Whether a filter selects a frame: error filters take error frames only and the rest only others. */
  predicate Selects(canId: CanId, mask: CanId, frame: CanId) {
    if mask.err then
      frame.err && frame.bits * mask.bits != {}
    else
      var m := EffectiveMask(canId, mask);
      !frame.err && (And(frame, m) == And(canId, m)) != canId.err
  }

  /** The identifier positions that count: those of the mask, but only the low 11 where standard frames are meant. */
  predicate Counts(canId: CanId, mask: CanId, i: nat) { i in mask.bits && (mask.eff && !canId.eff ==> i < 11) }

  /** The frame has the flags and identifier bits of the filter wherever the mask asks for them. */
  ghost predicate Matches(canId: CanId, mask: CanId, frame: CanId) {
    && (mask.eff ==> (frame.eff <==> canId.eff)) && (mask.rtr ==> (frame.rtr <==> canId.rtr))
    && forall i: nat :: Counts(canId, mask, i) ==> (i in frame.bits <==> i in canId.bits)
  }

  /** The rule, bit by bit: data frames that match (or do not, if the filter is inverted), or errors of a class. */
  lemma SelectsExact(canId: CanId, mask: CanId, frame: CanId)
    ensures Selects(canId, mask, frame) <==>
              if mask.err then frame.err && exists i :: i in frame.bits && i in mask.bits
              else !frame.err && (Matches(canId, mask, frame) <==> !canId.err)
  {
    if mask.err {
      ErrorClass(mask, frame);
    } else {
      var m := EffectiveMask(canId, mask);
      assert forall i: nat :: i in m.bits <==> Counts(canId, mask, i);
      BitsMatch(m.bits, frame.bits, canId.bits);
    }
  }

  lemma ErrorClass(mask: CanId, frame: CanId)
    ensures frame.bits * mask.bits != {} <==> exists i :: i in frame.bits && i in mask.bits
  {
    if i: nat :| i in frame.bits && i in mask.bits { assert i in frame.bits * mask.bits; }
    if frame.bits * mask.bits != {} {
      var i :| i in frame.bits * mask.bits;
      assert i in frame.bits && i in mask.bits;
    }
  }

  lemma BitsMatch(m: Bits, a: Bits, b: Bits)
    ensures a * m == b * m <==> forall i: nat :: i in m ==> (i in a <==> i in b)
  {
    if a * m == b * m {
      forall i: nat | i in m ensures i in a <==> i in b {
        assert i in a * m <==> i in b * m;
      }
    }
  }

  // ----- the index -----

  /** Which list an entry is in: one of the five of `rx`, or that of a single standard id. */
  datatype Place = Err | All | Fil | Inv | Eff | Sff(id: Bits)

  datatype Receiver = Receiver(canId: CanId, mask: CanId, func: nat, data: nat)

  datatype Entry = Entry(place: Place, receiver: Receiver)

  /** The list for a filter, and the id and mask it is stored with. */
  function FindRcvList(canId: CanId, mask: CanId): (r: (Place, CanId, CanId))
    ensures r.0.Sff? ==> r.0.id <= SFF_BITS   // every such list is one of the 0x800
  {
    if mask.err then (Err, canId, And(mask, ERR_MASK))
    else
      var m := if mask.eff && !canId.eff then And(mask, SFF_EFF_RTR) else mask;
      var id := And(canId, m);
      if canId.err then (Inv, id, m)
      else if m == NONE then (All, id, m)
      else if m.eff && m.rtr && !id.rtr then
        if id.eff then
          (if m == ALL_EFF_RTR then (Eff, id, m) else (Fil, id, m))
        else if m == SFF_EFF_RTR then (Sff(id.bits), id, m)
        else (Fil, id, m)
      else (Fil, id, m)
  }

  function EntryOf(canId: CanId, mask: CanId, func: nat, data: nat): Entry {
    var (p, id, m) := FindRcvList(canId, mask);
    Entry(p, Receiver(id, m, func, data))
  }

  /** Whether the lists visited for a frame include `p`. */
  predicate Visited(p: Place, frame: CanId) {
    if frame.err then p == Err
    else
      p == All || p == Fil || p == Inv ||
      (!frame.rtr && p == if frame.eff then Eff else Sff(frame.bits * SFF_BITS))
  }

  /** The test made on an entry of a visited list. */
  predicate Passes(p: Place, r: Receiver, frame: CanId) {
    match p
    case Err => And(frame, r.mask) != NONE
    case All => true
    case Fil => And(frame, r.mask) == r.canId
    case Inv => And(frame, r.mask) != r.canId
    case Eff => r.canId == frame
    case Sff(_) => true
  }

  predicate Delivers(e: Entry, frame: CanId) {
    Visited(e.place, frame) && Passes(e.place, e.receiver, frame)
  }

  /** For every filter and every 32-bit frame id, the index delivers exactly what the rule selects. */
  lemma IndexIsRule(canId: CanId, mask: CanId, frame: CanId, func: nat, data: nat)
    ensures Delivers(EntryOf(canId, mask, func, data), frame) <==> Selects(canId, mask, frame)
  {
    assert mask.bits * ALL_BITS == mask.bits;
    assert frame.bits * ALL_BITS == frame.bits;
  }

  // ----- linear scan -----

  datatype Subscription = Subscription(canId: CanId, mask: CanId, func: nat, data: nat)
  {
    function Stored(): Entry { EntryOf(canId, mask, func, data) }
  }

  /** The subscriptions a frame is for, by the documented rule. */
  function Scan(subs: seq<Subscription>, frame: CanId): (r: seq<Subscription>) {
    if subs == [] then []
    else
      var s, front := subs[|subs| - 1], Scan(subs[..|subs| - 1], frame);
      if Selects(s.canId, s.mask, frame) then front + [s] else front
  }

  function StoredAll(subs: seq<Subscription>): (es: multiset<Entry>)
    ensures |es| == |subs|
  {
    if subs == [] then multiset{}
    else StoredAll(subs[..|subs| - 1]) + multiset{subs[|subs| - 1].Stored()}
  }

  /** What the index delivers out of `contents`. */
  ghost predicate DeliveredFrom(delivered: multiset<Entry>, contents: multiset<Entry>, frame: CanId) {
    forall e :: delivered[e] == if Delivers(e, frame) then contents[e] else 0
  }

  lemma {:induction false} ScanIsDelivered(subs: seq<Subscription>, frame: CanId)
    ensures DeliveredFrom(StoredAll(Scan(subs, frame)), StoredAll(subs), frame)
  {
    if subs != [] {
      var s, front := subs[|subs| - 1], subs[..|subs| - 1];
      ScanIsDelivered(front, frame);
      IndexIsRule(s.canId, s.mask, frame, s.func, s.data);
      if Selects(s.canId, s.mask, frame) {
        assert (Scan(front, frame) + [s])[..|Scan(front, frame)|] == Scan(front, frame);
      }
    }
  }

  /**
   The receivers reached, with multiplicity, and their number are those of a linear scan over
   any list of subscriptions with the same stored form.
   */
  lemma DispatchIsLinearScan(subs: seq<Subscription>, frame: CanId,
                             delivered: multiset<Entry>, contents: multiset<Entry>)
    requires contents == StoredAll(subs) && DeliveredFrom(delivered, contents, frame)
    ensures delivered == StoredAll(Scan(subs, frame)) && |delivered| == |Scan(subs, frame)|
  {
    ScanIsDelivered(subs, frame);
    forall e
      ensures delivered[e] == StoredAll(Scan(subs, frame))[e]
    {
    }
  }

  // ----- the lists in place -----

  /** The entries of one list that pass its test, in list order. */
  function Kept(p: Place, rs: seq<Receiver>, frame: CanId): (es: seq<Entry>) {
    if rs == [] then []
    else
      var r, front := rs[|rs| - 1], Kept(p, rs[..|rs| - 1], frame);
      if Passes(p, r, frame) then front + [Entry(p, r)] else front
  }

  lemma {:induction false} KeptCount(p: Place, rs: seq<Receiver>, frame: CanId, e: Entry)
    ensures multiset(Kept(p, rs, frame))[e]
            == if e.place == p && Passes(p, e.receiver, frame) then multiset(rs)[e.receiver] else 0
  {
    if rs != [] {
      KeptCount(p, rs[..|rs| - 1], frame, e);
      assert rs == rs[..|rs| - 1] + [rs[|rs| - 1]];
    }
  }

  type Lists = map<Place, seq<Receiver>>

  /** An absent list is empty. */
  function ListOf(lists: Lists, p: Place): seq<Receiver> {
    if p in lists then lists[p] else []
  }

  /** `e` is in its list as often as in `contents`. */
  predicate HeldAt(lists: Lists, contents: multiset<Entry>, e: Entry) {
    contents[e] == multiset(ListOf(lists, e.place))[e.receiver]
  }

  /** The lists hold exactly `contents`. */
  ghost predicate Holds(lists: Lists, contents: multiset<Entry>) {
    forall e :: HeldAt(lists, contents, e)
  }

  lemma HoldsAdd(lists: Lists, contents: multiset<Entry>, p: Place, r: Receiver)
    requires Holds(lists, contents)
    ensures Holds(lists[p := [r] + ListOf(lists, p)], contents + multiset{Entry(p, r)})
  {
    hide HeldAt, Holds;
    var l := ListOf(lists, p);
    var lists', contents' := lists[p := [r] + l], contents + multiset{Entry(p, r)};
    OneMore([r], l, r);
    HoldsMoved(lists, contents, lists', contents', p, r, 1);
  }

  lemma OneMore(first: seq<Receiver>, l: seq<Receiver>, r: Receiver)
    requires first == [r]
    ensures forall x :: multiset(first + l)[x] == multiset(l)[x] + if x == r then 1 else 0
  {
    assert multiset(first + l) == multiset(first) + multiset(l);
  }

  lemma HoldsRemove(lists: Lists, contents: multiset<Entry>, p: Place, i: nat)
    requires Holds(lists, contents) && i < |ListOf(lists, p)|
    ensures var l := ListOf(lists, p);
            && Entry(p, l[i]) in contents
            && Holds(lists[p := l[..i] + l[i + 1..]], contents - multiset{Entry(p, l[i])})
  {
    var l := ListOf(lists, p);
    var l', r := l[..i] + l[i + 1..], l[i];
    var lists', contents' := lists[p := l'], contents - multiset{Entry(p, r)};
    assert l == l[..i] + [r] + l[i + 1..];
    assert multiset(l) == multiset(l') + multiset{r};
    assert HeldAt(lists, contents, Entry(p, r)) && r in multiset(l);
    hide Holds, HeldAt;
    HoldsMoved(lists, contents, lists', contents', p, r, -1);
  }

  lemma NotHeld(lists: Lists, contents: multiset<Entry>, p: Place, r: Receiver)
    requires Holds(lists, contents) && r !in ListOf(lists, p)
    ensures Entry(p, r) !in contents
  {
    assert HeldAt(lists, contents, Entry(p, r));
  }

  /** One list and the contents change alike by `d` copies of an entry. */
  lemma HoldsMoved(lists: Lists, contents: multiset<Entry>, lists': Lists, contents': multiset<Entry>,
                   p: Place, r: Receiver, d: int)
    requires Holds(lists, contents)
    requires forall q :: q != p ==> ListOf(lists', q) == ListOf(lists, q)
    requires forall x :: multiset(ListOf(lists', p))[x] == multiset(ListOf(lists, p))[x] + if x == r then d else 0
    requires forall x :: contents'[x] == contents[x] + if x == Entry(p, r) then d else 0
    ensures Holds(lists', contents')
  {
    hide ListOf;
    forall e
      ensures HeldAt(lists', contents', e)
    {
      assert HeldAt(lists, contents, e);
    }
  }

  /** The lists a frame's way leads through. */
  function Order(frame: CanId): seq<Place> {
    if frame.err then [Err]
    else [All] + [Fil] + [Inv] + if frame.rtr then [] else [if frame.eff then Eff else Sff(frame.bits * SFF_BITS)]
  }

  lemma OrderVisits(frame: CanId)
    ensures var ps := Order(frame);
            && (forall i, j :: 0 <= i < j < |ps| ==> ps[i] != ps[j])
            && forall p :: p in ps <==> Visited(p, frame)
  {
  }

  class DevRcvLists {
    var lists: Lists
    var entries: int
    var removeOnZeroEntries: bool
    ghost var contents: multiset<Entry>

    function List(p: Place): seq<Receiver>
      reads this
    {
      ListOf(lists, p)
    }

    ghost predicate Valid()
      reads this
    {
      entries == |contents| && Holds(lists, contents)
    }

    constructor ()
      ensures Valid() && contents == multiset{} && !removeOnZeroEntries
    {
      lists, entries, removeOnZeroEntries, contents := map[], 0, false, multiset{};
    }

    /** `can_rx_register` once its receiver is allocated. */
    method Register(canId: CanId, mask: CanId, func: nat, data: nat)
      requires Valid()
      modifies this
      ensures Valid() && removeOnZeroEntries == old(removeOnZeroEntries)
      ensures contents == old(contents) + multiset{EntryOf(canId, mask, func, data)}
    {
      hide FindRcvList, Holds;
      var (p, id, m) := FindRcvList(canId, mask);
      var r := Receiver(id, m, func, data);
      var list := List(p);
      HoldsAdd(lists, contents, p, r);
      lists := lists[p := [r] + list];
      entries := entries + 1;
      contents := contents + multiset{Entry(p, r)};
    }

    /**
     `can_rx_unregister`: one equal entry goes, if there is one. `empty` says that the device
     structure is to be freed now.
     */
    method Unregister(canId: CanId, mask: CanId, func: nat, data: nat) returns (empty: bool)
      requires Valid()
      modifies this
      ensures Valid() && removeOnZeroEntries == old(removeOnZeroEntries)
      ensures contents == old(contents) - multiset{EntryOf(canId, mask, func, data)}
      ensures empty <==>
        removeOnZeroEntries && EntryOf(canId, mask, func, data) in old(contents) && contents == multiset{}
    {
      hide FindRcvList, Holds, HeldAt;
      var (p, id, m) := FindRcvList(canId, mask);
      var r := Receiver(id, m, func, data);
      var list := List(p);
      var i := 0;
      while i < |list| && list[i] != r
        invariant 0 <= i <= |list| && r !in list[..i]
      {
        i := i + 1;
      }
      if i == |list| {
        assert list[..i] == list;
        NotHeld(lists, contents, p, r);
        return false;
      }
      HoldsRemove(lists, contents, p, i);
      lists := lists[p := list[..i] + list[i + 1..]];
      entries := entries - 1;
      contents := contents - multiset{Entry(p, r)};
      empty := removeOnZeroEntries && entries == 0;
    }

    /** One list walked from its head, delivering the entries that pass. */
    method Walk(p: Place, frame: CanId) returns (matches: nat, delivered: seq<Entry>)
      ensures delivered == Kept(p, List(p), frame) && matches == |delivered|
    {
      var list := List(p);
      matches, delivered := 0, [];
      for i := 0 to |list|
        invariant delivered == Kept(p, list[..i], frame) && matches == |delivered|
      {
        assert list[..i + 1][..i] == list[..i];
        if Passes(p, list[i], frame) {
          delivered := delivered + [Entry(p, list[i])];
          matches := matches + 1;
        }
      }
      assert list[..|list|] == list;
    }

    /** Lists walked one after the other, counting matches across them. */
    method WalkOn(p: Place, frame: CanId, matches: nat, delivered: seq<Entry>, ghost ps: seq<Place>)
      returns (matches': nat, delivered': seq<Entry>)
      requires delivered == KeptIn(ps, frame) && matches == |delivered|
      ensures delivered' == KeptIn(ps + [p], frame) && matches' == |delivered'|
    {
      var n, ds := Walk(p, frame);
      matches', delivered' := matches + n, delivered + ds;
      KeptInSnoc(ps, p, frame);
    }

    /** `can_rcv_filter`. */
    method RcvFilter(frame: CanId) returns (matches: nat, delivered: seq<Entry>)
      requires Valid()
      ensures matches == |delivered| && DeliveredFrom(multiset(delivered), contents, frame)
    {
      hide KeptIn, Holds, Order, Kept;
      matches, delivered := 0, [];
      if entries == 0 {
        assert contents == multiset{};
        return;
      }
      OrderIs(frame);
      KeptInNone(frame);
      if frame.err {
        matches, delivered := WalkOn(Err, frame, 0, [], []);
        CountLists(delivered, frame);
        return;
      }
      matches, delivered := WalkOn(All, frame, 0, [], []);
      matches, delivered := WalkOn(Fil, frame, matches, delivered, [] + [All]);
      matches, delivered := WalkOn(Inv, frame, matches, delivered, [] + [All] + [Fil]);
      if frame.rtr {
        CountLists(delivered, frame);
        return;
      }
      var last := if frame.eff then Eff else Sff(frame.bits * SFF_BITS);
      matches, delivered := WalkOn(last, frame, matches, delivered, [] + [All] + [Fil] + [Inv]);
      CountLists(delivered, frame);
    }

    lemma OrderIs(frame: CanId)
      ensures var ps := [] + [All] + [Fil] + [Inv];
              Order(frame) == if frame.err then [] + [Err]
                              else if frame.rtr then ps
                              else ps + [if frame.eff then Eff else Sff(frame.bits * SFF_BITS)]
    {
    }

    lemma KeptInNone(frame: CanId)
      ensures KeptIn([], frame) == []
    {
    }

    lemma KeptInSnoc(ps: seq<Place>, p: Place, frame: CanId)
      ensures KeptIn(ps + [p], frame) == KeptIn(ps, frame) + Kept(p, List(p), frame)
    {
      assert (ps + [p])[..|ps|] == ps;
    }

    /** What passes in the lists `ps`, one after the other. */
    function KeptIn(ps: seq<Place>, frame: CanId): seq<Entry>
      reads this
    {
      if ps == [] then []
      else KeptIn(ps[..|ps| - 1], frame) + Kept(ps[|ps| - 1], List(ps[|ps| - 1]), frame)
    }

    lemma {:induction false} KeptInCount(ps: seq<Place>, frame: CanId, e: Entry)
      requires Valid() && forall i, j :: 0 <= i < j < |ps| ==> ps[i] != ps[j]
      ensures multiset(KeptIn(ps, frame))[e]
              == if e.place in ps && Passes(e.place, e.receiver, frame) then contents[e] else 0
      decreases |ps|
    {
      if ps != [] {
        var p := ps[|ps| - 1];
        KeptInCount(ps[..|ps| - 1], frame, e);
        KeptCount(p, List(p), frame, e);
        assert HeldAt(lists, contents, e);
        assert ps == ps[..|ps| - 1] + [p];
      }
    }

    lemma CountLists(delivered: seq<Entry>, frame: CanId)
      requires Valid() && delivered == KeptIn(Order(frame), frame)
      ensures DeliveredFrom(multiset(delivered), contents, frame)
    {
      OrderVisits(frame);
      hide Order, KeptIn, Visited, Passes;
      forall e
        ensures multiset(delivered)[e] == if Delivers(e, frame) then contents[e] else 0
      {
        KeptInCount(Order(frame), frame, e);
      }
    }
  }

  /** `can_receive`: the lists for all devices, then those of the frame's device if it has any. */
  method CanReceive(all: DevRcvLists, dev: DevRcvLists?, frame: CanId)
    returns (matches: nat, delivered: seq<Entry>)
    requires all.Valid() && (dev != null ==> dev.Valid())
    ensures matches == |delivered|
    ensures DeliveredFrom(multiset(delivered),
              all.contents + (if dev != null then dev.contents else multiset{}), frame)
  {
    matches, delivered := all.RcvFilter(frame);
    if dev != null {
      var n, ds := dev.RcvFilter(frame);
      matches, delivered := matches + n, delivered + ds;
    }
  }
}
