/**
 The IIO scan demultiplexer: out of a scan of all active channels, each at its own aligned
 position, it copies the channels one buffer has selected into that buffer's own layout, through
 a table of copies computed beforehand.
 */
module Demux {
  import opened Arith
  import opened Common

  // ----- alignment -----

  /** The first multiple of `a` from `x` on. For a power of two this is the kernel's ALIGN. */
  function RoundUp(x: nat, a: nat): (r: nat)
    requires a > 0
    ensures x <= r < x + a && r % a == 0
  {
    var q, m := x / a, x % a;
    assert x == q * a + m;
    if m == 0 then x
    else
      assert x + a - m == (q + 1) * a + 0;
      DivModUnique(x + a - m, a, q + 1, 0);
      x + a - m
  }

  lemma RoundUpUnique(x: nat, a: nat, m: nat)
    requires a > 0 && x <= m < x + a && m % a == 0
    ensures RoundUp(x, a) == m
  {
    var r := RoundUp(x, a);
    assert r == (r / a) * a && m == (m / a) * a;
    assert r - m == (r / a - m / a) * a;
    MultipleAway(r / a - m / a, a);
  }

  lemma RoundUpMonotone(x: nat, y: nat, a: nat)
    requires a > 0 && x <= y
    ensures RoundUp(x, a) <= RoundUp(y, a)
  {
    if RoundUp(y, a) < x + a {
      RoundUpUnique(x, a, RoundUp(y, a));
    }
  }

  lemma NextMultiple(m: nat, a: nat)
    requires a > 0 && m % a == 0
    ensures (m + a) % a == 0
  {
    assert m + a == (m / a + 1) * a + 0;
    DivModUnique(m + a, a, m / a + 1, 0);
  }

  lemma RoundUpShift(x: nat, a: nat)
    requires a > 0
    ensures RoundUp(x + a, a) == RoundUp(x, a) + a
  {
    NextMultiple(RoundUp(x, a), a);
    RoundUpUnique(x + a, a, RoundUp(x, a) + a);
  }

  lemma RoundUpSmall(x: nat, a: nat)
    requires 0 < x <= a
    ensures RoundUp(x, a) == a
  {
    DivModUnique(a, a, 1, 0);
    RoundUpUnique(x, a, a);
  }

  lemma RoundUpZero(a: nat)
    requires a > 0
    ensures RoundUp(0, a) == 0
  {
  }

  // ----- layouts -----

  /** Storage bytes of each channel, by scan index. */
  type Sizes = seq<nat>

  /** What the results need of power-of-two sizes: of two different ones, one is at least twice the other. */
  predicate Powers(sizes: Sizes) {
    && (forall i :: 0 <= i < |sizes| ==> sizes[i] > 0)
    && forall i, j :: 0 <= i < |sizes| && 0 <= j < |sizes| && sizes[i] < sizes[j] ==> 2 * sizes[i] <= sizes[j]
  }

  predicate Fits(sizes: Sizes, mask: seq<bool>) {
    |mask| == |sizes| && forall i :: 0 <= i < |sizes| ==> sizes[i] > 0
  }

  /** Bytes taken by the channels of `mask` below `n`. */
  function End(sizes: Sizes, mask: seq<bool>, n: nat): (e: nat)
    requires Fits(sizes, mask) && n <= |mask|
    decreases n, 0
  {
    if n == 0 then 0
    else if mask[n - 1] then Place(sizes, mask, n - 1) + sizes[n - 1]
    else End(sizes, mask, n - 1)
  }

  /** Where channel `i` goes behind the channels of `mask` below it. */
  function Place(sizes: Sizes, mask: seq<bool>, i: nat): (p: nat)
    requires Fits(sizes, mask) && i < |mask|
    ensures p % sizes[i] == 0
    decreases i, 1
  {
    RoundUp(End(sizes, mask, i), sizes[i])
  }

  /** `iio_compute_scan_bytes`; a `ts` of 0 means that there is no timestamp. */
  function ScanBytes(sizes: Sizes, mask: seq<bool>, ts: nat): nat
    requires Fits(sizes, mask)
  {
    var end := End(sizes, mask, |mask|);
    if ts == 0 then end else RoundUp(end, ts) + ts
  }

  lemma {:induction false} EndMonotone(sizes: Sizes, mask: seq<bool>, m: nat, n: nat)
    requires Fits(sizes, mask) && m <= n <= |mask|
    ensures End(sizes, mask, m) <= End(sizes, mask, n)
  {
    if m < n {
      EndMonotone(sizes, mask, m, n - 1);
    }
  }

  // ----- the table -----

  /** A copy; `chan` is the channel it is for (the length of the masks stands for the timestamp). */
  datatype Copy = Copy(chan: nat, from: nat, to: nat, length: nat)

  /** `find_next_bit` */
  function NextBit(mask: seq<bool>, i: nat): (n: nat)
    ensures n <= |mask| || n == i
    ensures i <= n && (n < |mask| ==> mask[n]) && (forall k :: i <= k < n && k < |mask| ==> !mask[k])
    decreases |mask| - i
  {
    if i >= |mask| || mask[i] then i else NextBit(mask, i + 1)
  }

  /** The source position when channel `out` is reached from active channel `i`, position `loc`. */
  function Skip(sizes: Sizes, active: seq<bool>, i: nat, loc: nat, out: nat): (l: nat)
    requires Fits(sizes, active) && i <= out < |active| && active[out]
    decreases out - i
  {
    if i == out then loc
    else
      var j := NextBit(active, i + 1);
      Skip(sizes, active, j, RoundUp(loc + sizes[j], sizes[j]), out)
  }

  predicate Masks(sizes: Sizes, active: seq<bool>, selected: seq<bool>) {
    && Fits(sizes, active) && |selected| == |active|
    && forall i :: 0 <= i < |selected| && selected[i] ==> active[i]
  }

  /** The copies for the selected channels from `o` on; also where both positions end up. */
  function Table(sizes: Sizes, active: seq<bool>, selected: seq<bool>, o: nat, next: nat, inLoc: nat, outLoc: nat)
    : (r: (seq<Copy>, nat, nat))
    requires Masks(sizes, active, selected) && o <= |selected| && next <= o
    decreases |selected| - o
  {
    if o == |selected| then ([], inLoc, outLoc)
    else if !selected[o] then Table(sizes, active, selected, o + 1, next, inLoc, outLoc)
    else
      var from := RoundUp(Skip(sizes, active, NextBit(active, next), inLoc, o), sizes[o]);
      var to := RoundUp(outLoc, sizes[o]);
      var rest := Table(sizes, active, selected, o + 1, o + 1, from + sizes[o], to + sizes[o]);
      ([Copy(o, from, to, sizes[o])] + rest.0, rest.1, rest.2)
  }

  function TableOf(sizes: Sizes, active: seq<bool>, selected: seq<bool>): (t: seq<Copy>)
    requires Masks(sizes, active, selected)
  {
    Table(sizes, active, selected, 0, 0, 0, 0).0
  }

  // ----- where the copies go -----

  /** One copy for each selected channel from `o` on, in order, to its place in the buffer's layout. */
  ghost predicate Destinations(t: seq<Copy>, sizes: Sizes, selected: seq<bool>, o: nat)
    requires Fits(sizes, selected)
  {
    && (forall k :: 0 <= k < |t| ==>
          o <= t[k].chan < |selected| && selected[t[k].chan] && t[k].length == sizes[t[k].chan]
          && t[k].to == Place(sizes, selected, t[k].chan))
    && (forall k, l :: 0 <= k < l < |t| ==> t[k].chan < t[l].chan)
    && (forall c :: o <= c < |selected| && selected[c] ==> exists k :: 0 <= k < |t| && t[k].chan == c)
  }

  lemma {:induction false} TableDestinations(sizes: Sizes, active: seq<bool>, selected: seq<bool>, o: nat, next: nat,
                                             inLoc: nat, outLoc: nat)
    requires Masks(sizes, active, selected) && o <= |selected| && next <= o && outLoc == End(sizes, selected, o)
    ensures var r := Table(sizes, active, selected, o, next, inLoc, outLoc);
            Destinations(r.0, sizes, selected, o) && r.2 == End(sizes, selected, |selected|)
    decreases |selected| - o
  {
    hide RoundUp, Skip;
    if o < |selected| {
      if selected[o] {
        var from := RoundUp(Skip(sizes, active, NextBit(active, next), inLoc, o), sizes[o]);
        var to := RoundUp(outLoc, sizes[o]);
        TableDestinations(sizes, active, selected, o + 1, o + 1, from + sizes[o], to + sizes[o]);
        var rest := Table(sizes, active, selected, o + 1, o + 1, from + sizes[o], to + sizes[o]).0;
        AddFirst(Copy(o, from, to, sizes[o]), rest, sizes, selected, o);
      } else {
        TableDestinations(sizes, active, selected, o + 1, next, inLoc, outLoc);
      }
    }
  }

  lemma AddFirst(c: Copy, rest: seq<Copy>, sizes: Sizes, selected: seq<bool>, o: nat)
    requires Fits(sizes, selected) && o < |selected| && selected[o] && Destinations(rest, sizes, selected, o + 1)
    requires c.chan == o && c.length == sizes[o] && c.to == Place(sizes, selected, o)
    ensures Destinations([c] + rest, sizes, selected, o)
  {
    var t := [c] + rest;
    hide Place;
    assert forall k :: 0 < k < |t| ==> t[k] == rest[k - 1];
    forall d | o <= d < |selected| && selected[d]
      ensures exists k :: 0 <= k < |t| && t[k].chan == d
    {
      if d == o {
        assert t[0].chan == o;
      } else {
        var k :| 0 <= k < |rest| && rest[k].chan == d;
        assert t[k + 1].chan == d;
      }
    }
  }

  /** The destination ranges are aligned, in order, disjoint, and inside the computed scan size. */
  lemma DestinationsDisjoint(sizes: Sizes, active: seq<bool>, selected: seq<bool>, ts: nat)
    requires Masks(sizes, active, selected)
    ensures var t := TableOf(sizes, active, selected);
            && Destinations(t, sizes, selected, 0)
            && (forall k :: 0 <= k < |t| ==>
                  t[k].to % t[k].length == 0 && t[k].to + t[k].length <= End(sizes, selected, |selected|)
                  && t[k].to + t[k].length <= ScanBytes(sizes, selected, ts))
            && (forall k, l :: 0 <= k < l < |t| ==> t[k].to + t[k].length <= t[l].to)
  {
    TableDestinations(sizes, active, selected, 0, 0, 0, 0);
    var t := TableOf(sizes, active, selected);
    hide Table, RoundUp;
    forall k | 0 <= k < |t|
      ensures t[k].to + t[k].length == End(sizes, selected, t[k].chan + 1) <= End(sizes, selected, |selected|)
    {
      EndMonotone(sizes, selected, t[k].chan + 1, |selected|);
    }
    forall k, l | 0 <= k < l < |t|
      ensures t[k].to + t[k].length <= t[l].to
    {
      EndMonotone(sizes, selected, t[k].chan + 1, t[l].chan);
    }
  }

  // ----- where the copies come from -----

  /** Every copy reads its channel's place in the scan of the active channels. */
  ghost predicate Sources(t: seq<Copy>, sizes: Sizes, active: seq<bool>)
    requires Fits(sizes, active)
  {
    forall k :: 0 <= k < |t| ==> t[k].chan < |active| && t[k].from == Place(sizes, active, t[k].chan)
  }

  /** All channels but the first have one size, and the first is not larger. */
  predicate UniformButFirst(sizes: Sizes) {
    forall i, j :: 0 <= i < j < |sizes| ==> sizes[i] <= sizes[j] && (i > 0 ==> sizes[i] == sizes[j])
  }

  lemma {:induction false} EndFlat(sizes: Sizes, mask: seq<bool>, m: nat, n: nat)
    requires Fits(sizes, mask) && m <= n <= |mask| && forall k :: m <= k < n ==> !mask[k]
    ensures End(sizes, mask, n) == End(sizes, mask, m)
  {
    if m < n {
      EndFlat(sizes, mask, m, n - 1);
    }
  }

  lemma RoundUpAgain(x: nat, a: nat)
    requires a > 0 && x % a == 0
    ensures RoundUp(x, a) == x
  {
    RoundUpUnique(x, a, x);
  }

  /** Adding the size of the channel arrived at is right when it equals that of the one left. */
  lemma {:induction false} SkipRight(sizes: Sizes, active: seq<bool>, i: nat, loc: nat, out: nat)
    requires Fits(sizes, active) && UniformButFirst(sizes) && i <= out < |active| && active[i] && active[out]
    requires RoundUp(loc, sizes[i]) == Place(sizes, active, i)
    ensures RoundUp(Skip(sizes, active, i, loc, out), sizes[out]) == Place(sizes, active, out)
    decreases out - i
  {
    if i < out {
      var j := NextBit(active, i + 1);
      EndFlat(sizes, active, i + 1, j);
      var a, b := sizes[i], sizes[j];
      var loc' := RoundUp(loc + b, b);
      if i > 0 {
        RoundUpShift(loc, b);
      } else {
        RoundUpZero(a);
        RoundUpSmall(b, b);
        RoundUpSmall(a, b);
      }
      hide RoundUp;
      RoundUpAgain(loc', b);
      SkipRight(sizes, active, j, loc', out);
    }
  }

  /** One past the last bit that is set from `from` on, or `from` if there is none. */
  function LastBound(mask: seq<bool>, from: nat): (b: nat)
    requires from <= |mask|
    ensures from <= b <= |mask| && (b > from ==> mask[b - 1]) && forall k :: b <= k < |mask| ==> !mask[k]
    decreases |mask| - from
  {
    if from == |mask| then from
    else
      var b := LastBound(mask, from + 1);
      if b > from + 1 || mask[from] then b else from
  }

  /** With `inLoc` at the end of the channels below `next`, all sources are right. */
  lemma {:induction false} TableSources(sizes: Sizes, active: seq<bool>, selected: seq<bool>, o: nat, next: nat,
                                        inLoc: nat, outLoc: nat)
    requires Masks(sizes, active, selected) && UniformButFirst(sizes) && o <= |selected| && next <= o
    requires inLoc == End(sizes, active, next) && forall k :: next <= k < o ==> !selected[k]
    ensures var r := Table(sizes, active, selected, o, next, inLoc, outLoc);
            && Sources(r.0, sizes, active)
            && r.1 == End(sizes, active, LastBound(selected, next))
    decreases |selected| - o
  {
    hide RoundUp, Skip;
    if o < |selected| {
      if selected[o] {
        var i := NextBit(active, next);
        EndFlat(sizes, active, next, i);
        SkipRight(sizes, active, i, inLoc, o);
        var from := RoundUp(Skip(sizes, active, i, inLoc, o), sizes[o]);
        var to := RoundUp(outLoc, sizes[o]);
        TableSources(sizes, active, selected, o + 1, o + 1, from + sizes[o], to + sizes[o]);
      } else {
        TableSources(sizes, active, selected, o + 1, next, inLoc, outLoc);
      }
    }
  }

  // ----- when the sources are right -----

  lemma SkipOne(sizes: Sizes, active: seq<bool>, i: nat, j: nat, loc: nat)
    requires Fits(sizes, active) && i < j < |active| && active[j] && NextBit(active, i + 1) == j
    ensures Skip(sizes, active, i, loc, j) == RoundUp(loc + sizes[j], sizes[j])
  {
  }

  lemma TableTakes(sizes: Sizes, active: seq<bool>, selected: seq<bool>, o: nat, next: nat, inLoc: nat, outLoc: nat)
    requires Masks(sizes, active, selected) && o < |selected| && selected[o] && next <= o
    ensures var from := RoundUp(Skip(sizes, active, NextBit(active, next), inLoc, o), sizes[o]);
            var to := RoundUp(outLoc, sizes[o]);
            var rest := Table(sizes, active, selected, o + 1, o + 1, from + sizes[o], to + sizes[o]);
            Table(sizes, active, selected, o, next, inLoc, outLoc)
            == ([Copy(o, from, to, sizes[o])] + rest.0, rest.1, rest.2)
  {
  }

  function Only(n: nat, s: set<nat>): (m: seq<bool>)
    ensures |m| == n && forall i :: 0 <= i < n ==> (m[i] <==> i in s)
  {
    seq(n, i => i in s)
  }

  lemma {:induction false} TableSkips(sizes: Sizes, active: seq<bool>, selected: seq<bool>, o: nat, o': nat, next: nat,
                                      inLoc: nat, outLoc: nat)
    requires Masks(sizes, active, selected) && next <= o <= o' <= |selected|
    requires forall k :: o <= k < o' ==> !selected[k]
    ensures Table(sizes, active, selected, o, next, inLoc, outLoc)
            == Table(sizes, active, selected, o', next, inLoc, outLoc)
    decreases o' - o
  {
    if o < o' {
      TableSkips(sizes, active, selected, o + 1, o', next, inLoc, outLoc);
    }
  }

  lemma OnlyCopy(sizes: Sizes, active: seq<bool>, selected: seq<bool>, i: nat, j: nat)
    requires Masks(sizes, active, selected) && i < j < |selected| && active[i] && selected[j]
    requires forall m :: 0 <= m < j && m != i ==> !active[m]
    requires !selected[i]
    ensures var t := TableOf(sizes, active, selected); t != [] && t[0].chan == j && t[0].from == sizes[j]
  {
    hide RoundUp, Table, Skip;
    assert NextBit(active, 0) == i && NextBit(active, i + 1) == j;
    TableSkips(sizes, active, selected, 0, j, 0, 0, 0);
    TableTakes(sizes, active, selected, j, 0, 0, 0);
    SkipOne(sizes, active, i, j, 0);
    RoundUpSmall(sizes[j], sizes[j]);
  }

  /** A larger channel before a smaller one: skipping the first advances too little. */
  lemma LargerFirstFails(sizes: Sizes, i: nat, j: nat)
    requires Powers(sizes) && i < j < |sizes| && sizes[i] > sizes[j]
    ensures exists active, selected :: Masks(sizes, active, selected)
              && !Sources(TableOf(sizes, active, selected), sizes, active)
  {
    var active, selected := Only(|sizes|, {i, j}), Only(|sizes|, {j});
    hide RoundUp, TableOf, Only;
    OnlyCopy(sizes, active, selected, i, j);
    EndFlat(sizes, active, i + 1, j);
    var t := TableOf(sizes, active, selected);
    assert Place(sizes, active, t[0].chan) >= sizes[i];
  }

  lemma FirstCopy(sizes: Sizes, active: seq<bool>, selected: seq<bool>, i: nat)
    requires Masks(sizes, active, selected) && i < |selected| && selected[i]
    requires forall m :: 0 <= m < i ==> !active[m]
    ensures Table(sizes, active, selected, 0, 0, 0, 0).0
            == [Copy(i, 0, 0, sizes[i])] + Table(sizes, active, selected, i + 1, i + 1, sizes[i], sizes[i]).0
  {
    hide RoundUp, Table, Skip;
    assert NextBit(active, 0) == i;
    TableSkips(sizes, active, selected, 0, i, 0, 0, 0);
    TableTakes(sizes, active, selected, i, 0, 0, 0);
    SkipNone(sizes, active, i, 0);
    RoundUpAgain(0, sizes[i]);
  }

  lemma SecondCopy(sizes: Sizes, active: seq<bool>, selected: seq<bool>, i: nat, j: nat, k: nat)
    requires Masks(sizes, active, selected) && i < j < k < |selected| && active[j] && selected[k]
    requires sizes[i] <= sizes[k]
    requires forall m :: i < m < k && m != j ==> !active[m]
    requires !selected[j]
    ensures var t := Table(sizes, active, selected, i + 1, i + 1, sizes[i], sizes[i]).0;
            t != [] && t[0].chan == k && t[0].from == 2 * sizes[k]
  {
    hide RoundUp, Table, Skip;
    var a := sizes[i];
    assert NextBit(active, i + 1) == j && NextBit(active, j + 1) == k;
    TableSkips(sizes, active, selected, i + 1, k, i + 1, a, a);
    TableTakes(sizes, active, selected, k, i + 1, a, a);
    SkipOne(sizes, active, j, k, a);
    RoundUpTwice(a, sizes[k]);
  }

  lemma SmallerBetweenFrom(sizes: Sizes, i: nat, j: nat, k: nat, active: seq<bool>, selected: seq<bool>)
    requires Powers(sizes) && i < j < k < |sizes| && sizes[i] <= sizes[j] < sizes[k]
    requires active == Only(|sizes|, {i, j, k}) && selected == Only(|sizes|, {i, k})
    ensures Masks(sizes, active, selected)
    ensures var t := TableOf(sizes, active, selected); |t| > 1 && t[1].chan == k && t[1].from == 2 * sizes[k]
  {
    hide RoundUp, Table, Skip;
    FirstCopy(sizes, active, selected, i);
    SecondCopy(sizes, active, selected, i, j, k);
  }

  lemma RoundUpTwice(a: nat, c: nat)
    requires 0 < a <= c
    ensures RoundUp(RoundUp(a + c, c), c) == 2 * c
  {
    RoundUpSmall(a, c);
    RoundUpShift(a, c);
    RoundUpAgain(RoundUp(a + c, c), c);
  }

  lemma SmallerBetweenPlace(sizes: Sizes, i: nat, j: nat, k: nat, active: seq<bool>)
    requires Powers(sizes) && i < j < k < |sizes| && sizes[i] <= sizes[j] < sizes[k]
    requires active == Only(|sizes|, {i, j, k})
    ensures Place(sizes, active, k) == sizes[k]
  {
    hide RoundUp, Only;
    EndFlat(sizes, active, 0, i);
    EndFlat(sizes, active, i + 1, j);
    EndFlat(sizes, active, j + 1, k);
    RoundUpAgain(0, sizes[i]);
    RoundUpSmall(sizes[i], sizes[j]);
    RoundUpSmall(2 * sizes[j], sizes[k]);
  }

  /** A smaller channel skipped between the first and a larger one: the advance is too much. */
  lemma SmallerBetweenFails(sizes: Sizes, i: nat, j: nat, k: nat)
    requires Powers(sizes) && i < j < k < |sizes| && sizes[i] <= sizes[j] < sizes[k]
    ensures exists active, selected :: Masks(sizes, active, selected)
              && !Sources(TableOf(sizes, active, selected), sizes, active)
  {
    var active, selected := Only(|sizes|, {i, j, k}), Only(|sizes|, {i, k});
    hide TableOf, Place, Only;
    SmallerBetweenFrom(sizes, i, j, k, active, selected);
    SmallerBetweenPlace(sizes, i, j, k, active);
    var t := TableOf(sizes, active, selected);
    assert t[1].from != Place(sizes, active, t[1].chan);
  }

  lemma SkipNone(sizes: Sizes, active: seq<bool>, i: nat, loc: nat)
    requires Fits(sizes, active) && i < |active| && active[i]
    ensures Skip(sizes, active, i, loc, i) == loc
  {
  }

  /**
   For a table of power-of-two channel sizes, the copies read the right places for every pair of
   masks if and only if all channels but the first have one size and the first is not larger.
   */
  lemma SourcesExact(sizes: Sizes)
    requires Powers(sizes)
    ensures (forall active, selected :: Masks(sizes, active, selected)
                                        ==> Sources(TableOf(sizes, active, selected), sizes, active))
            <==> UniformButFirst(sizes)
  {
    if UniformButFirst(sizes) {
      forall active, selected | Masks(sizes, active, selected)
        ensures Sources(TableOf(sizes, active, selected), sizes, active)
      {
        TableSources(sizes, active, selected, 0, 0, 0, 0);
      }
    } else {
      var i, j :| 0 <= i < j < |sizes| && !(sizes[i] <= sizes[j] && (i > 0 ==> sizes[i] == sizes[j]));
      if sizes[i] > sizes[j] {
        LargerFirstFails(sizes, i, j);
      } else if sizes[0] > sizes[i] {
        LargerFirstFails(sizes, 0, i);
      } else {
        SmallerBetweenFails(sizes, 0, i, j);
      }
    }
  }

  // ----- the timestamp -----

  /** Where the timestamp lies in a scan. */
  function TimestampPlace(sizes: Sizes, mask: seq<bool>, ts: nat): nat
    requires Fits(sizes, mask) && ts > 0
  {
    RoundUp(End(sizes, mask, |mask|), ts)
  }

  /** The copy of the timestamp, after those of the channels. */
  function TimestampCopy(sizes: Sizes, active: seq<bool>, selected: seq<bool>, ts: nat): Copy
    requires Masks(sizes, active, selected) && ts > 0
  {
    var r := Table(sizes, active, selected, 0, 0, 0, 0);
    Copy(|selected|, RoundUp(r.1, ts), RoundUp(r.2, ts), ts)
  }

  /** The active channels above the buffer's last one take no room that alignment does not already give. */
  predicate NoRoomAbove(sizes: Sizes, active: seq<bool>, selected: seq<bool>, ts: nat)
    requires Masks(sizes, active, selected) && ts > 0
  {
    RoundUp(End(sizes, active, LastBound(selected, 0)), ts) == RoundUp(End(sizes, active, |active|), ts)
  }

  predicate HighestSelected(active: seq<bool>, selected: seq<bool>)
    requires |active| == |selected|
  {
    forall i :: 0 <= i < |active| && active[i] ==> exists k :: i <= k < |selected| && selected[k]
  }

  /**
   For any sizes the timestamp goes to its place. Where the channels' sources are right, it comes
   from its place exactly if the channels above the buffer's last one take no room.
   */
  lemma TimestampExact(sizes: Sizes, active: seq<bool>, selected: seq<bool>, ts: nat)
    requires Masks(sizes, active, selected) && ts > 0
    ensures var c := TimestampCopy(sizes, active, selected, ts);
            && c.to == TimestampPlace(sizes, selected, ts)
            && c.to + c.length == ScanBytes(sizes, selected, ts)
            && (UniformButFirst(sizes) ==>
                  && c.from + c.length <= ScanBytes(sizes, active, ts)
                  && (c.from == TimestampPlace(sizes, active, ts) <==> NoRoomAbove(sizes, active, selected, ts)))
  {
    hide Table, RoundUp, UniformButFirst;
    TableDestinations(sizes, active, selected, 0, 0, 0, 0);
    if UniformButFirst(sizes) {
      TableSources(sizes, active, selected, 0, 0, 0, 0);
      EndMonotone(sizes, active, LastBound(selected, 0), |active|);
      RoundUpMonotone(End(sizes, active, LastBound(selected, 0)), End(sizes, active, |active|), ts);
    }
  }

  /** There is no channel above when the buffer has the highest active one. */
  lemma TimestampOfHighest(sizes: Sizes, active: seq<bool>, selected: seq<bool>, ts: nat)
    requires Masks(sizes, active, selected) && ts > 0 && HighestSelected(active, selected)
    ensures NoRoomAbove(sizes, active, selected, ts)
    ensures UniformButFirst(sizes) ==>
              TimestampCopy(sizes, active, selected, ts).from == TimestampPlace(sizes, active, ts)
  {
    EndFlat(sizes, active, LastBound(selected, 0), |active|);
    hide UniformButFirst;
    TimestampExact(sizes, active, selected, ts);
  }

  /** Five active channels of two bytes, the first one selected: the timestamp comes from too low. */
  lemma TimestampWrong()
    ensures var sizes, active, selected := [2, 2, 2, 2, 2], [true, true, true, true, true],
                                           [true, false, false, false, false];
            && Masks(sizes, active, selected) && UniformButFirst(sizes)
            && TimestampCopy(sizes, active, selected, 8).from == 8
            && TimestampPlace(sizes, active, 8) == 16
  {
    var sizes: Sizes := [2, 2, 2, 2, 2];
    var active, selected := [true, true, true, true, true], [true, false, false, false, false];
    assert End(sizes, active, 1) == 2;
    assert End(sizes, active, 2) == 4;
    assert End(sizes, active, 3) == 6;
    assert End(sizes, active, 4) == 8;
    assert End(sizes, active, 5) == 10;
    assert LastBound(selected, 0) == 1 by {
      assert LastBound(selected, 5) == 5 && LastBound(selected, 4) == 4 && LastBound(selected, 3) == 3;
      assert LastBound(selected, 2) == 2 && LastBound(selected, 1) == 1;
    }
    TableSources(sizes, active, selected, 0, 0, 0, 0);
  }

  // ----- the code -----

  type Byte = bv8

  function FullTable(sizes: Sizes, active: seq<bool>, selected: seq<bool>, ts: nat): (t: seq<Copy>)
    requires Masks(sizes, active, selected)
  {
    TableOf(sizes, active, selected) + if ts > 0 then [TimestampCopy(sizes, active, selected, ts)] else []
  }

  /** Copies that stay inside both buffers and do not overlap in the destination. */
  predicate Safe(t: seq<Copy>, fromSize: nat, toSize: nat) {
    && (forall k :: 0 <= k < |t| ==> t[k].from + t[k].length <= fromSize && t[k].to + t[k].length <= toSize)
    && (forall k, l :: 0 <= k < l < |t| ==> t[k].to + t[k].length <= t[l].to)
  }

  /** The bytes of a copy have arrived. */
  predicate CopyDone(c: Copy, datain: seq<Byte>, out: seq<Byte>) {
    c.from + c.length <= |datain| && c.to + c.length <= |out|
    && out[c.to..c.to + c.length] == datain[c.from..c.from + c.length]
  }

  lemma EarlierCopyStays(c: Copy, d: Copy, datain: seq<Byte>, before: seq<Byte>, after: seq<Byte>)
    requires CopyDone(c, datain, before) && c.to + c.length <= d.to <= |before| == |after|
    requires before[..d.to] == after[..d.to]
    ensures CopyDone(c, datain, after)
  {
    assert after[c.to..c.to + c.length] == after[..d.to][c.to..c.to + c.length];
    assert before[c.to..c.to + c.length] == before[..d.to][c.to..c.to + c.length];
  }

  // ----- when the table stays inside the scan -----

  predicate Positive(sizes: Sizes) { forall i :: 0 <= i < |sizes| ==> sizes[i] > 0 }

  /** What lies before a channel that is smaller than a later one is aligned for the later one. */
  predicate AlignedBefore(sizes: Sizes)
    requires Positive(sizes)
  {
    forall h, i, j :: 0 <= h < i < j < |sizes| && sizes[i] < sizes[j] ==>
      sizes[h] % sizes[j] == 0 && sizes[j] % sizes[i] == 0
  }

  lemma MultipleOfMultiple(x: nat, b: nat, a: nat)
    requires a > 0 && b > 0 && x % b == 0 && b % a == 0
    ensures x % a == 0
  {
    var k, l := x / b, b / a;
    assert x == k * b && b == l * a;
    assert x == (k * l) * a + 0 by {
      assert k * (l * a) == (k * l) * a;
    }
    DivModUnique(x, a, k * l, 0);
  }

  lemma SumOfMultiples(x: nat, y: nat, a: nat)
    requires a > 0 && x % a == 0 && y % a == 0
    ensures (x + y) % a == 0
  {
    var k, l := x / a, y / a;
    assert x + y == (k + l) * a + 0;
    DivModUnique(x + y, a, k + l, 0);
  }

  lemma {:induction false} EndMultiple(sizes: Sizes, mask: seq<bool>, n: nat, a: nat)
    requires Fits(sizes, mask) && n <= |mask| && a > 0
    requires forall h :: 0 <= h < n ==> sizes[h] % a == 0
    ensures End(sizes, mask, n) % a == 0
  {
    hide RoundUp;
    if n > 0 {
      EndMultiple(sizes, mask, n - 1, a);
      if mask[n - 1] {
        MultipleOfMultiple(Place(sizes, mask, n - 1), sizes[n - 1], a);
        SumOfMultiples(Place(sizes, mask, n - 1), sizes[n - 1], a);
      }
    }
  }

  /** One step of the skip: at the next active channel `j` the position is not beyond its place. */
  lemma SkipStepInside(sizes: Sizes, active: seq<bool>, i: nat, j: nat, loc: nat)
    requires Fits(sizes, active) && AlignedBefore(sizes) && i < j < |active| && active[i] && active[j]
    requires forall k :: i < k < j ==> !active[k]
    requires RoundUp(loc, sizes[i]) <= Place(sizes, active, i)
    ensures RoundUp(loc + sizes[j], sizes[j]) <= Place(sizes, active, j)
  {
    EndFlat(sizes, active, i + 1, j);
    var a, b, m := sizes[i], sizes[j], Place(sizes, active, i);
    hide RoundUp;
    assert End(sizes, active, j) == m + a;
    if b <= a {
      RoundUpMonotone(loc + b, m + a, b);
    } else {
      SmallFirstAligned(sizes, active, i, j);
      NextMultiple(m, b);
      RoundUpUnique(m + a, b, m + b);
      RoundUpMonotone(loc + b, m + b, b);
      RoundUpAgain(m + b, b);
    }
  }

  lemma SmallFirstAligned(sizes: Sizes, active: seq<bool>, i: nat, j: nat)
    requires Fits(sizes, active) && AlignedBefore(sizes) && i < j < |active| && sizes[i] < sizes[j]
    ensures Place(sizes, active, i) % sizes[j] == 0
  {
    hide RoundUp;
    if i == 0 {
      RoundUpZero(sizes[i]);
    } else {
      AlignedAt(sizes, i, j);
      hide AlignedBefore;
      EndMultiple(sizes, active, i, sizes[j]);
      MultipleOfMultiple(End(sizes, active, i), sizes[j], sizes[i]);
      RoundUpAgain(End(sizes, active, i), sizes[i]);
    }
  }

  lemma AlignedAt(sizes: Sizes, i: nat, j: nat)
    requires Positive(sizes) && AlignedBefore(sizes) && 0 < i < j < |sizes| && sizes[i] < sizes[j]
    ensures sizes[j] % sizes[i] == 0 && forall h :: 0 <= h < i ==> sizes[h] % sizes[j] == 0
  {
    assert sizes[0] % sizes[j] == 0;
  }

  lemma {:induction false} SkipInside(sizes: Sizes, active: seq<bool>, i: nat, loc: nat, out: nat)
    requires Fits(sizes, active) && AlignedBefore(sizes) && i <= out < |active| && active[i] && active[out]
    requires RoundUp(loc, sizes[i]) <= Place(sizes, active, i)
    ensures RoundUp(Skip(sizes, active, i, loc, out), sizes[out]) <= Place(sizes, active, out)
    decreases out - i
  {
    hide RoundUp, Place, AlignedBefore;
    if i < out {
      var j := NextBit(active, i + 1);
      SkipStepInside(sizes, active, i, j, loc);
      var loc' := RoundUp(loc + sizes[j], sizes[j]);
      RoundUpAgain(loc', sizes[j]);
      SkipInside(sizes, active, j, loc', out);
    }
  }

  /** With `inLoc` not beyond the end of the channels below `next`, no source is beyond its place. */
  lemma {:induction false} TableInside(sizes: Sizes, active: seq<bool>, selected: seq<bool>, o: nat, next: nat,
                                       inLoc: nat, outLoc: nat)
    requires Masks(sizes, active, selected) && AlignedBefore(sizes) && o <= |selected| && next <= o
    requires inLoc <= End(sizes, active, next)
    ensures var r := Table(sizes, active, selected, o, next, inLoc, outLoc);
            && (forall c :: c in r.0 ==> c.from + c.length <= End(sizes, active, |active|))
            && r.1 <= End(sizes, active, |active|)
    decreases |selected| - o
  {
    hide RoundUp, Skip, AlignedBefore, Place;
    if o == |selected| {
      EndMonotone(sizes, active, next, |active|);
    } else if selected[o] {
      var i := NextBit(active, next);
      SourceInside(sizes, active, next, o, inLoc);
      var from := RoundUp(Skip(sizes, active, i, inLoc, o), sizes[o]);
      var to := RoundUp(outLoc, sizes[o]);
      EndMonotone(sizes, active, o + 1, |active|);
      TableInside(sizes, active, selected, o + 1, o + 1, from + sizes[o], to + sizes[o]);
    } else {
      TableInside(sizes, active, selected, o + 1, next, inLoc, outLoc);
    }
  }

  lemma SourceInside(sizes: Sizes, active: seq<bool>, next: nat, o: nat, inLoc: nat)
    requires Fits(sizes, active) && AlignedBefore(sizes) && next <= o < |active| && active[o]
    requires inLoc <= End(sizes, active, next)
    ensures RoundUp(Skip(sizes, active, NextBit(active, next), inLoc, o), sizes[o]) <= Place(sizes, active, o)
  {
    hide RoundUp, Skip, AlignedBefore;
    var i := NextBit(active, next);
    EndFlat(sizes, active, next, i);
    RoundUpMonotone(inLoc, End(sizes, active, i), sizes[i]);
    SkipInside(sizes, active, i, inLoc, o);
  }

  /** The table, with or without a timestamp, is then safe to run on every scan of the computed size. */
  lemma FullTableSafe(sizes: Sizes, active: seq<bool>, selected: seq<bool>, ts: nat)
    requires Masks(sizes, active, selected) && AlignedBefore(sizes)
    ensures Safe(FullTable(sizes, active, selected, ts),
                 ScanBytes(sizes, active, ts), ScanBytes(sizes, selected, ts))
  {
    hide RoundUp, AlignedBefore, Table;
    DestinationsDisjoint(sizes, active, selected, ts);
    TableInside(sizes, active, selected, 0, 0, 0, 0);
    if ts > 0 {
      TimestampExact(sizes, active, selected, ts);
      RoundUpMonotone(Table(sizes, active, selected, 0, 0, 0, 0).1, End(sizes, active, |active|), ts);
    }
    hide End;
  }

  /** Sizes such as powers of two: of two different ones, one is a multiple of the other. */
  predicate Nested(sizes: Sizes) {
    && Powers(sizes)
    && forall i, j :: 0 <= i < |sizes| && 0 <= j < |sizes| && sizes[i] < sizes[j] ==> sizes[j] % sizes[i] == 0
  }

  /** No channel has two smaller ones before it. */
  predicate NoTwoSmaller(sizes: Sizes) {
    forall i, j, k :: 0 <= i < j < k < |sizes| ==> sizes[k] <= sizes[i] || sizes[k] <= sizes[j]
  }

  lemma NoTwoSmallerAligned(sizes: Sizes)
    requires Nested(sizes) && NoTwoSmaller(sizes)
    ensures AlignedBefore(sizes)
  {
    forall h, i, j | 0 <= h < i < j < |sizes| && sizes[i] < sizes[j]
      ensures sizes[h] % sizes[j] == 0 && sizes[j] % sizes[i] == 0
    {
      assert sizes[j] <= sizes[h];
      if sizes[j] == sizes[h] { DivModUnique(sizes[h], sizes[j], 1, 0); }
    }
  }

  lemma TwoSmallerEnd(sizes: Sizes, i: nat, j: nat, k: nat, active: seq<bool>)
    requires Fits(sizes, active) && i < j < k < |sizes| && 2 * sizes[i] <= sizes[k] && 2 * sizes[j] <= sizes[k]
    requires sizes[i] <= sizes[j] || sizes[i] % sizes[j] == 0
    requires active == Only(|sizes|, {i, j, k})
    ensures End(sizes, active, |sizes|) == 2 * sizes[k]
  {
    hide RoundUp, Only;
    EndFlat(sizes, active, 0, i);
    EndFlat(sizes, active, i + 1, j);
    RoundUpAgain(0, sizes[i]);
    if sizes[i] <= sizes[j] {
      RoundUpSmall(sizes[i], sizes[j]);
    } else {
      RoundUpAgain(sizes[i], sizes[j]);
    }
    assert active[i] && active[j] && End(sizes, active, j) == sizes[i];
    assert Place(sizes, active, j) == RoundUp(sizes[i], sizes[j]);
    var before := End(sizes, active, j + 1);
    assert before == RoundUp(sizes[i], sizes[j]) + sizes[j];
    assert before <= sizes[k];
    EndFlat(sizes, active, j + 1, k);
    RoundUpSmall(before, sizes[k]);
    EndFlat(sizes, active, k + 1, |sizes|);
  }

  /** Two smaller channels before one, of which the second is skipped: the read ends beyond the scan. */
  lemma TwoSmallerReads(sizes: Sizes, i: nat, j: nat, k: nat, active: seq<bool>, selected: seq<bool>)
    requires Nested(sizes) && i < j < k < |sizes| && sizes[i] < sizes[k] && sizes[j] < sizes[k]
    requires active == Only(|sizes|, {i, j, k}) && selected == Only(|sizes|, {i, k})
    ensures Masks(sizes, active, selected) && ScanBytes(sizes, active, 0) == 2 * sizes[k]
    ensures var t := FullTable(sizes, active, selected, 0);
            |t| > 1 && t[1].chan == k && t[1].from == 2 * sizes[k] && t[1].length == sizes[k]
  {
    hide RoundUp, Table, Skip, End;
    if sizes[i] == sizes[j] { DivModUnique(sizes[i], sizes[j], 1, 0); }
    TwoSmallerEnd(sizes, i, j, k, active);
    FirstCopy(sizes, active, selected, i);
    SecondCopy(sizes, active, selected, i, j, k);
    DestinationsDisjoint(sizes, active, selected, 0);
    assert FullTable(sizes, active, selected, 0) == TableOf(sizes, active, selected);
  }

  ghost predicate AlwaysSafe(sizes: Sizes) {
    forall active, selected, ts: nat :: Masks(sizes, active, selected) ==>
      Safe(FullTable(sizes, active, selected, ts), ScanBytes(sizes, active, ts), ScanBytes(sizes, selected, ts))
  }

  /**
   For power-of-two sizes, the table installed for any masks and timestamp stays inside every scan if
   and only if no channel has two smaller ones before it.
   */
  lemma SafeExact(sizes: Sizes)
    requires Nested(sizes)
    ensures AlwaysSafe(sizes) <==> NoTwoSmaller(sizes)
  {
    hide Safe, FullTable, ScanBytes, Nested, AlignedBefore;
    if NoTwoSmaller(sizes) {
      NoTwoSmallerAligned(sizes);
      forall active, selected, ts: nat | Masks(sizes, active, selected)
        ensures Safe(FullTable(sizes, active, selected, ts),
                     ScanBytes(sizes, active, ts), ScanBytes(sizes, selected, ts))
      {
        FullTableSafe(sizes, active, selected, ts);
      }
    } else {
      var i, j, k :| 0 <= i < j < k < |sizes| && sizes[k] > sizes[i] && sizes[k] > sizes[j];
      TwoSmallerUnsafe(sizes, i, j, k);
    }
  }

  lemma TwoSmallerUnsafe(sizes: Sizes, i: nat, j: nat, k: nat)
    requires Nested(sizes) && i < j < k < |sizes| && sizes[i] < sizes[k] && sizes[j] < sizes[k]
    ensures var active, selected := Only(|sizes|, {i, j, k}), Only(|sizes|, {i, k});
            && Masks(sizes, active, selected)
            && !Safe(FullTable(sizes, active, selected, 0), ScanBytes(sizes, active, 0), ScanBytes(sizes, selected, 0))
  {
    hide Only, FullTable, ScanBytes, Nested;
    var active, selected := Only(|sizes|, {i, j, k}), Only(|sizes|, {i, k});
    TwoSmallerReads(sizes, i, j, k, active, selected);
    Beyond(FullTable(sizes, active, selected, 0), ScanBytes(sizes, active, 0), ScanBytes(sizes, selected, 0), 1);
  }

  lemma Beyond(t: seq<Copy>, fromSize: nat, toSize: nat, k: nat)
    requires k < |t| && t[k].from + t[k].length > fromSize
    ensures !Safe(t, fromSize, toSize)
  {
  }

  /** The smallest such case: bytes 4 and 5 of a scan of 4 bytes are read. */
  lemma ReadsBeyond()
    ensures var sizes, active, selected := [1, 1, 2], [true, true, true], [true, false, true];
            && Masks(sizes, active, selected) && ScanBytes(sizes, active, 0) == 4
            && var t := FullTable(sizes, active, selected, 0); |t| > 1 && t[1].from == 4 && t[1].length == 2
  {
    hide RoundUp, Table, Skip, End, FullTable;
    var sizes: Sizes := [1, 1, 2];
    DivModUnique(2, 1, 2, 0);
    assert [true, true, true] == Only(3, {0, 1, 2}) && [true, false, true] == Only(3, {0, 2});
    TwoSmallerReads(sizes, 0, 1, 2, [true, true, true], [true, false, true]);
  }

  /** `n` is a power of two. */
  predicate IsPower(n: nat) { n == 1 || (n > 1 && n % 2 == 0 && IsPower(n / 2)) }

  lemma {:induction false} PowersNest(a: nat, b: nat)
    requires IsPower(a) && IsPower(b) && a < b
    ensures 2 * a <= b && b % a == 0
    decreases b
  {
    if a == 1 {
      DivModUnique(b, 1, b, 0);
    } else {
      PowersNest(a / 2, b / 2);
      var k := (b / 2) / (a / 2);
      assert b / 2 == k * (a / 2);
      assert b == k * a + 0;
      DivModUnique(b, a, k, 0);
    }
  }

  /** Power-of-two sizes are nested. */
  lemma PowersOfTwo(sizes: Sizes)
    requires forall i :: 0 <= i < |sizes| ==> IsPower(sizes[i])
    ensures Nested(sizes)
  {
    forall i, j | 0 <= i < |sizes| && 0 <= j < |sizes| && sizes[i] < sizes[j]
      ensures 2 * sizes[i] <= sizes[j] && sizes[j] % sizes[i] == 0
    {
      PowersNest(sizes[i], sizes[j]);
    }
  }

  /**
   End to end: with such sizes, running the table puts every selected channel's bytes at that channel's
   place in the buffer, and those of the timestamp at its place if no channel above takes room.
   */
  lemma DemuxPreserves(sizes: Sizes, active: seq<bool>, selected: seq<bool>, ts: nat, datain: seq<Byte>, out: seq<Byte>)
    requires Masks(sizes, active, selected) && UniformButFirst(sizes)
    requires |datain| >= ScanBytes(sizes, active, ts) && |out| == ScanBytes(sizes, selected, ts)
    ensures Safe(FullTable(sizes, active, selected, ts), |datain|, |out|)
    ensures var t := FullTable(sizes, active, selected, ts);
      (forall k :: 0 <= k < |t| ==> CopyDone(t[k], datain, out)) ==>
        && (forall c :: 0 <= c < |selected| && selected[c] ==> ChannelMoved(sizes, active, selected, c, datain, out))
        && (ts > 0 && NoRoomAbove(sizes, active, selected, ts) ==>
              TimestampMoved(sizes, active, selected, ts, datain, out))
  {
    var t, all := TableOf(sizes, active, selected), FullTable(sizes, active, selected, ts);
    assert AlignedBefore(sizes);
    FullTableSafe(sizes, active, selected, ts);
    DestinationsDisjoint(sizes, active, selected, ts);
    TableSources(sizes, active, selected, 0, 0, 0, 0);
    if ts > 0 { TimestampExact(sizes, active, selected, ts); }
    hide Table, TableOf, RoundUp, TimestampCopy, UniformButFirst, CopyDone, Safe, TimestampPlace, ScanBytes;
    assert forall k :: 0 <= k < |t| ==> all[k] == t[k];
    assert ts > 0 ==> all[|t|] == TimestampCopy(sizes, active, selected, ts);
  }

  /** The timestamp's bytes went from its place in the scan to its place in the buffer. */
  predicate TimestampMoved(sizes: Sizes, active: seq<bool>, selected: seq<bool>, ts: nat,
                           datain: seq<Byte>, out: seq<Byte>)
    requires Masks(sizes, active, selected) && ts > 0
  {
    CopyDone(Copy(|selected|, TimestampPlace(sizes, active, ts), TimestampPlace(sizes, selected, ts), ts), datain, out)
  }

  /** A selected channel's bytes went from its place in the scan to its place in the buffer. */
  predicate ChannelMoved(sizes: Sizes, active: seq<bool>, selected: seq<bool>, c: nat,
                         datain: seq<Byte>, out: seq<Byte>)
    requires Masks(sizes, active, selected) && c < |selected|
  {
    CopyDone(Copy(c, Place(sizes, active, c), Place(sizes, selected, c), sizes[c]), datain, out)
  }

  /** `list` is the table as far as channel `o`, and the rest follows from the positions. */
  ghost predicate Built(sizes: Sizes, active: seq<bool>, selected: seq<bool>, list: seq<Copy>,
                        o: nat, next: nat, inLoc: nat, outLoc: nat)
    requires Masks(sizes, active, selected)
  {
    next <= o <= |selected| &&
    var all, r := Table(sizes, active, selected, 0, 0, 0, 0), Table(sizes, active, selected, o, next, inLoc, outLoc);
    all == (list + r.0, r.1, r.2)
  }

  lemma BuiltTakes(sizes: Sizes, active: seq<bool>, selected: seq<bool>, list: seq<Copy>,
                   o: nat, next: nat, inLoc: nat, outLoc: nat)
    requires Masks(sizes, active, selected) && Built(sizes, active, selected, list, o, next, inLoc, outLoc)
    requires o < |selected| && selected[o]
    ensures |list| < |TableOf(sizes, active, selected)|
    ensures var from := RoundUp(Skip(sizes, active, NextBit(active, next), inLoc, o), sizes[o]);
            var to := RoundUp(outLoc, sizes[o]);
            Built(sizes, active, selected, list + [Copy(o, from, to, sizes[o])],
                  o + 1, o + 1, from + sizes[o], to + sizes[o])
  {
    hide Table, RoundUp, Skip;
    TableTakes(sizes, active, selected, o, next, inLoc, outLoc);
    var from := RoundUp(Skip(sizes, active, NextBit(active, next), inLoc, o), sizes[o]);
    var to := RoundUp(outLoc, sizes[o]);
    var c := Copy(o, from, to, sizes[o]);
    var rest := Table(sizes, active, selected, o + 1, o + 1, from + sizes[o], to + sizes[o]).0;
    assert list + ([c] + rest) == (list + [c]) + rest;
  }

  lemma BuiltSkips(sizes: Sizes, active: seq<bool>, selected: seq<bool>, list: seq<Copy>,
                   o: nat, next: nat, inLoc: nat, outLoc: nat)
    requires Masks(sizes, active, selected) && Built(sizes, active, selected, list, o, next, inLoc, outLoc)
    requires o < |selected| && !selected[o]
    ensures Built(sizes, active, selected, list, o + 1, next, inLoc, outLoc)
  {
    TableSkips(sizes, active, selected, o, o + 1, next, inLoc, outLoc);
    hide Table;
  }

  lemma BuiltStarts(sizes: Sizes, active: seq<bool>, selected: seq<bool>)
    requires Masks(sizes, active, selected)
    ensures Built(sizes, active, selected, [], 0, 0, 0, 0)
  {
    hide Table;
    var all := Table(sizes, active, selected, 0, 0, 0, 0);
    assert [] + all.0 == all.0;
  }

  lemma BuiltDone(sizes: Sizes, active: seq<bool>, selected: seq<bool>, list: seq<Copy>,
                  next: nat, inLoc: nat, outLoc: nat, ts: nat)
    requires Masks(sizes, active, selected)
    requires Built(sizes, active, selected, list, |selected|, next, inLoc, outLoc)
    ensures list == TableOf(sizes, active, selected) && outLoc == End(sizes, selected, |selected|)
    ensures ts > 0 ==>
              TimestampCopy(sizes, active, selected, ts)
              == Copy(|selected|, RoundUp(inLoc, ts), RoundUp(outLoc, ts), ts)
  {
    TableDestinations(sizes, active, selected, 0, 0, 0, 0);
  }

  class Buffer {
    var demuxList: seq<Copy>
    var bounce: array?<Byte>

    constructor ()
      ensures demuxList == [] && bounce == null
    {
      demuxList, bounce := [], null;
    }

    /**
     `iio_buffer_update_demux`; `memory` is the number of allocations that succeed. Equal masks need
     no table. If memory runs out there is no table either.
     */
    method UpdateDemux(sizes: Sizes, active: seq<bool>, selected: seq<bool>, ts: nat, memory: nat) returns (ret: int)
      requires Masks(sizes, active, selected)
      modifies this
      ensures active == selected ==> ret == 0 && demuxList == [] && bounce == null
      ensures active != selected && memory > |FullTable(sizes, active, selected, ts)| ==>
        && ret == 0 && demuxList == FullTable(sizes, active, selected, ts)
        && bounce != null && fresh(bounce) && bounce.Length == ScanBytes(sizes, selected, ts)
      ensures active != selected && memory <= |FullTable(sizes, active, selected, ts)| ==>
        ret == -ENOMEM && demuxList == [] && bounce == null
    {
      demuxList, bounce := [], null;
      if active == selected { return 0; }
      hide RoundUp, Skip, NextBit, Built, TableOf, TimestampCopy, End;
      BuiltStarts(sizes, active, selected);
      var inInd: int, inLoc, outLoc, left := -1, 0, 0, memory;
      var outInd := 0;
      while outInd < |selected|
        invariant 0 <= outInd <= |selected| && -1 <= inInd < outInd && inLoc >= 0 && outLoc >= 0
        invariant bounce == null && left >= 0 && left + |demuxList| == memory
        invariant Built(sizes, active, selected, demuxList, outInd, inInd + 1, inLoc, outLoc)
        decreases |selected| - outInd
      {
        if selected[outInd] {
          BuiltTakes(sizes, active, selected, demuxList, outInd, inInd + 1, inLoc, outLoc);
          inInd, inLoc := SkipChannels(sizes, active, inInd, inLoc, outInd);
          if left == 0 {
            demuxList := [];
            return -ENOMEM;
          }
          left := left - 1;
          var length := sizes[outInd];
          outLoc := RoundUp(outLoc, length);
          inLoc := RoundUp(inLoc, length);
          demuxList := demuxList + [Copy(outInd, inLoc, outLoc, length)];
          outLoc := outLoc + length;
          inLoc := inLoc + length;
        } else {
          BuiltSkips(sizes, active, selected, demuxList, outInd, inInd + 1, inLoc, outLoc);
        }
        outInd := outInd + 1;
      }
      BuiltDone(sizes, active, selected, demuxList, inInd + 1, inLoc, outLoc, ts);
      if ts > 0 {
        if left == 0 {
          demuxList := [];
          return -ENOMEM;
        }
        left := left - 1;
        outLoc := RoundUp(outLoc, ts);
        inLoc := RoundUp(inLoc, ts);
        demuxList := demuxList + [Copy(|selected|, inLoc, outLoc, ts)];
        outLoc := outLoc + ts;
      }
      if left == 0 {
        demuxList := [];
        return -ENOMEM;
      }
      bounce := new Byte[outLoc];
      ret := 0;
    }

    /** From the next active channel on to channel `outInd`, advancing the source position. */
    method SkipChannels(sizes: Sizes, active: seq<bool>, inInd: int, inLoc: nat, outInd: nat)
      returns (ind: int, loc: nat)
      requires Fits(sizes, active) && -1 <= inInd < outInd < |active| && active[outInd]
      ensures ind == outInd && loc == Skip(sizes, active, NextBit(active, inInd + 1), inLoc, outInd)
    {
      ind, loc := NextBit(active, inInd + 1), inLoc;
      while ind != outInd
        invariant 0 <= ind <= outInd
        invariant Skip(sizes, active, ind, loc, outInd)
                  == Skip(sizes, active, NextBit(active, inInd + 1), inLoc, outInd)
        decreases outInd - ind
      {
        ind := NextBit(active, ind + 1);
        var length := sizes[ind];
        loc := RoundUp(loc + length, length);
      }
    }

    /** `iio_demux`: the copies of the table, or the scan itself if there are none. */
    method Demux(datain: seq<Byte>) returns (out: seq<Byte>)
      requires demuxList != [] ==> bounce != null && Safe(demuxList, |datain|, bounce.Length)
      modifies bounce
      ensures demuxList == [] ==> out == datain
      ensures demuxList != [] ==>
        |out| == bounce.Length && forall k :: 0 <= k < |demuxList| ==> CopyDone(demuxList[k], datain, out)
    {
      if demuxList == [] { return datain; }
      for i := 0 to |demuxList|
        invariant demuxList == old(demuxList) && bounce == old(bounce)
        invariant forall k :: 0 <= k < i ==> CopyDone(demuxList[k], datain, bounce[..])
      {
        ghost var before := bounce[..];
        Memcpy(demuxList[i], datain);
        forall k | 0 <= k < i
          ensures CopyDone(demuxList[k], datain, bounce[..])
        {
          EarlierCopyStays(demuxList[k], demuxList[i], datain, before, bounce[..]);
        }
      }
      out := bounce[..];
    }

    method Memcpy(c: Copy, datain: seq<Byte>)
      requires bounce != null && c.from + c.length <= |datain| && c.to + c.length <= bounce.Length
      modifies bounce
      ensures CopyDone(c, datain, bounce[..])
      ensures bounce[..c.to] == old(bounce[..c.to]) && bounce[c.to + c.length..] == old(bounce[c.to + c.length..])
    {
      for i := 0 to c.length
        invariant bounce == old(bounce)
        invariant bounce[c.to..c.to + i] == datain[c.from..c.from + i]
        invariant bounce[..c.to] == old(bounce[..c.to]) && bounce[c.to + c.length..] == old(bounce[c.to + c.length..])
      {
        bounce[c.to + i] := datain[c.from + i];
      }
    }
  }
}
