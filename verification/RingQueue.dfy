/**
 The shared word ring between the master and the MT7697 slave.

 One queue is a ring of `N` words in slave memory together with two offsets, also in
 slave memory. The writer owns the write offset, the reader owns the read offset, and
 each side works from a private copy of the other side's offset which it refreshes only
 by a bus transaction of its own. `Ring` is the machine made of those single
 transactions; a run is any interleaving of them. The class `Queue` is the driver's
 imperative code; its methods are shown to perform scripts of machine steps.
 */
module RingQueue {

  newtype Word = x: int | 0 <= x < 0x1_0000_0000

  // ----- offsets -----

  /** The slot `n` places after a slot; at the end the ring starts over. */
  function Advance(size: nat, offset: nat, n: nat): (to: nat)
    requires offset < size && n <= size
    ensures to < size
  {
    if offset + n < size then offset + n else offset + n - size
  }

  /** Words between two offsets, walking forward. */
  function BufDiff(size: nat, from: nat, to: nat): (d: nat)
    requires from < size && to < size
    ensures d < size && Advance(size, from, d) == to
  {
    if from <= to then to - from else size - from + to
  }

  function FreeWords(size: nat, rd: nat, wr: nat): (free: nat)
    requires rd < size && wr < size
    ensures free + BufDiff(size, rd, wr) == size - 1
  {
    size - 1 - BufDiff(size, rd, wr)
  }

  /** The slot of the n-th word of an endless tape wound onto the ring: `n % size`. */
  function Wind(size: nat, n: nat): (slot: nat)
    requires size > 0
    ensures slot < size
  {
    if n < size then n else Wind(size, n - size)
  }

  lemma {:induction false} WindAdvance(size: nat, n: nat, d: nat)
    requires 0 < size && d <= size
    ensures Advance(size, Wind(size, n), d) == Wind(size, n + d)
  {
    if n >= size {
      WindAdvance(size, n - size, d);
    }
  }

  /** Words less than one lap apart lie in different slots. */
  lemma {:induction false} WindInjective(size: nat, a: nat, b: nat)
    requires a < b < a + size
    ensures Wind(size, a) != Wind(size, b)
  {
    if a >= size {
      WindInjective(size, a - size, b - size);
    }
  }

  lemma BufDiffOfCounts(size: nat, a: nat, b: nat)
    requires a <= b < a + size
    ensures BufDiff(size, Wind(size, a), Wind(size, b)) == b - a
  {
    WindAdvance(size, a, b - a);
  }

  // ----- the machine -----

  /** What happened so far, counted in words from the start. */
  datatype History = History(
    written: seq<Word>,   // committed by the writer, in order
    read: seq<Word>,      // committed by the reader, in order
    published: nat,       // words covered by the write offset in slave memory
    seen: nat,            // words covered by the reader's copy of it
    released: nat,        // words covered by the read offset in slave memory
    known: nat)           // words covered by the writer's copy of it

  datatype Ring = Ring(
    mem: seq<Word>,
    rd: nat, wr: nat,                              // offsets in slave memory
    writerRd: nat, writerWr: nat, stored: seq<Word>,  // writer: copies, words stored but not committed
    readerRd: nat, readerWr: nat, loaded: seq<Word>,  // reader: copies, words loaded but not committed
    base: nat,                                     // offset at which the queue started
    history: History)
  {
    const N := |mem|

    predicate Bounded() {
      rd < N && wr < N && writerRd < N && writerWr < N && readerRd < N && readerWr < N &&
      |stored| < N && |loaded| < N
    }

    /** Memory slot of the i-th word ever written. */
    function Slot(i: nat): (s: nat)
      requires N > 0
      ensures s < N
    {
      Wind(N, base + i)
    }

    /** Everything the writer has put in memory, committed or not. */
    function Put(): seq<Word> { history.written + stored }
  }

  datatype Step =
    | WriterPull | WriterStore(word: Word) | WriterAbort | WriterCommit | WriterPush
    | ReaderPull | ReaderLoad | ReaderAbort | ReaderCommit | ReaderPush

  /** Whether the side taking the step allows it, judging by its own copies. */
  predicate Enabled(s: Ring, a: Step)
    requires s.Bounded()
  {
    match a
    case WriterStore(_) => |s.stored| < FreeWords(s.N, s.writerRd, s.writerWr)
    case ReaderLoad => |s.loaded| < BufDiff(s.N, s.readerRd, s.readerWr)
    case _ => true
  }

  /** A step that is not allowed is not taken. */
  function Apply(s: Ring, a: Step): (s': Ring)
    requires s.Bounded()
    ensures s'.Bounded() && s'.N == s.N
  {
    if !Enabled(s, a) then s else
    match a
    case WriterPull =>
      s.(writerRd := s.rd, history := s.history.(known := s.history.released))
    case WriterStore(w) =>
      s.(mem := s.mem[Advance(s.N, s.writerWr, |s.stored|) := w], stored := s.stored + [w])
    case WriterAbort =>
      s.(stored := [])
    case WriterCommit =>
      s.(writerWr := Advance(s.N, s.writerWr, |s.stored|), stored := [],
         history := s.history.(written := s.Put()))
    case WriterPush =>
      s.(wr := s.writerWr, history := s.history.(published := |s.history.written|))
    case ReaderPull =>
      s.(readerWr := s.wr, history := s.history.(seen := s.history.published))
    case ReaderLoad =>
      s.(loaded := s.loaded + [s.mem[Advance(s.N, s.readerRd, |s.loaded|)]])
    case ReaderAbort =>
      s.(loaded := [])
    case ReaderCommit =>
      s.(readerRd := Advance(s.N, s.readerRd, |s.loaded|), loaded := [],
         history := s.history.(read := s.history.read + s.loaded))
    case ReaderPush =>
      s.(rd := s.readerRd, history := s.history.(released := |s.history.read|))
  }

  function Run(s: Ring, steps: seq<Step>): (s': Ring)
    requires s.Bounded()
    ensures s'.Bounded() && s'.N == s.N
  {
    if steps == [] then s
    else Apply(Run(s, steps[..|steps| - 1]), steps[|steps| - 1])
  }

  /** An empty queue whose offsets both stand at `o`. */
  predicate Initial(s: Ring, o: nat) {
    o < s.N && s.rd == s.wr == s.writerRd == s.writerWr == s.readerRd == s.readerWr == s.base == o &&
    s.stored == s.loaded == [] && s.history == History([], [], 0, 0, 0, 0)
  }

  // ----- the invariant -----

  /** Where every offset stands, and that no copy is ahead of what it copies. */
  ghost predicate Offsets(s: Ring) {
    var h := s.history;
    && s.Bounded() && s.base < s.N
    && h.known <= h.released <= |h.read| && |h.read| + |s.loaded| <= h.seen <= h.published <= |h.written|
    && |h.written| + |s.stored| <= h.known + s.N - 1
    && s.writerWr == s.Slot(|h.written|) && s.wr == s.Slot(h.published) && s.readerWr == s.Slot(h.seen)
    && s.readerRd == s.Slot(|h.read|) && s.rd == s.Slot(h.released) && s.writerRd == s.Slot(h.known)
  }

  /** Every word the reader may still need is in its slot. */
  ghost predicate Contents(s: Ring) {
    forall i :: s.history.known <= i < |s.Put()| ==> InPlace(s, i)
  }

  predicate InPlace(s: Ring, i: nat)
    requires i < |s.Put()|
  {
    s.N > 0 && s.mem[s.Slot(i)] == s.Put()[i]
  }

  ghost predicate Inv(s: Ring) {
    Offsets(s) && Contents(s) && s.history.read + s.loaded <= s.history.written
  }

  lemma InitialHolds(s: Ring, o: nat)
    requires Initial(s, o)
    ensures Inv(s)
  {
  }

  /** By its own copies the writer never sees more room than there is, the reader never more words. */
  lemma Estimates(s: Ring)
    requires Offsets(s)
    ensures FreeWords(s.N, s.writerRd, s.writerWr) == s.N - 1 - (|s.history.written| - s.history.known)
    ensures FreeWords(s.N, s.writerRd, s.writerWr) <= s.N - 1 - (|s.history.written| - |s.history.read|)
    ensures BufDiff(s.N, s.readerRd, s.readerWr) == s.history.seen - |s.history.read|
    ensures BufDiff(s.N, s.readerRd, s.readerWr) <= |s.history.written| - |s.history.read|
  {
    hide Wind;
    BufDiffOfCounts(s.N, s.base + s.history.known, s.base + |s.history.written|);
    BufDiffOfCounts(s.N, s.base + |s.history.read|, s.base + s.history.seen);
  }

  /** The writer stores into the slot of the next word of the stream. */
  lemma StoreSlot(s: Ring)
    requires Offsets(s) && |s.stored| < FreeWords(s.N, s.writerRd, s.writerWr)
    ensures Advance(s.N, s.writerWr, |s.stored|) == s.Slot(|s.Put()|)
    ensures |s.Put()| + 1 <= s.history.known + s.N - 1
  {
    Estimates(s);
    WindAdvance(s.N, s.base + |s.history.written|, |s.stored|);
  }

  lemma StoreKeeps(s: Ring, w: Word)
    requires Inv(s) && Enabled(s, WriterStore(w))
    ensures Inv(Apply(s, WriterStore(w)))
  {
    StoreSlot(s);
    var s' := Apply(s, WriterStore(w));
    assert Offsets(s');
    StoreKeepsContents(s, s', w);
  }

  lemma StoreKeepsContents(s: Ring, s': Ring, w: Word)
    requires Contents(s) && s.N > 0 && |s.Put()| + 1 <= s.history.known + s.N - 1
    requires s'.mem == s.mem[s.Slot(|s.Put()|) := w] && s'.Put() == s.Put() + [w]
    requires s'.base == s.base && s'.history.known == s.history.known
    ensures Contents(s')
  {
    var n := |s.Put()|;
    forall i | s'.history.known <= i < n + 1
      ensures InPlace(s', i)
    {
      if i < n {
        WindInjective(s.N, s.base + i, s.base + n);
        assert InPlace(s, i);
      }
    }
  }

  /** The reader loads the word of the stream that follows those it has. */
  lemma LoadSlot(s: Ring)
    requires Inv(s) && |s.loaded| < BufDiff(s.N, s.readerRd, s.readerWr)
    ensures var n := |s.history.read| + |s.loaded|;
            && n < s.history.seen
            && s.mem[Advance(s.N, s.readerRd, |s.loaded|)] == s.history.written[n]
  {
    Estimates(s);
    var n := |s.history.read| + |s.loaded|;
    WindAdvance(s.N, s.base + |s.history.read|, |s.loaded|);
    assert InPlace(s, n);
  }

  lemma LoadKeeps(s: Ring)
    requires Inv(s) && Enabled(s, ReaderLoad)
    ensures Inv(Apply(s, ReaderLoad))
  {
    LoadSlot(s);
    var s' := Apply(s, ReaderLoad);
    assert Offsets(s');
    SameContents(s, s');
  }

  /** Contents depend on memory, the written stream and what the writer knows, nothing else. */
  lemma SameContents(s: Ring, s': Ring)
    requires Contents(s) && s'.mem == s.mem && s'.base == s.base && s'.Put() <= s.Put()
    requires s.history.known <= s'.history.known
    ensures Contents(s')
  {
    forall i | s'.history.known <= i < |s'.Put()|
      ensures InPlace(s', i)
    {
      assert InPlace(s, i);
    }
  }

  lemma WriterCommitKeeps(s: Ring)
    requires Inv(s)
    ensures Inv(Apply(s, WriterCommit))
  {
    hide Wind;
    WindAdvance(s.N, s.base + |s.history.written|, |s.stored|);
    SameContents(s, Apply(s, WriterCommit));
  }

  lemma WriterAbortKeeps(s: Ring)
    requires Inv(s)
    ensures Inv(Apply(s, WriterAbort))
  {
    hide Wind;
    SameContents(s, Apply(s, WriterAbort));
  }

  lemma ReaderCommitKeeps(s: Ring)
    requires Inv(s)
    ensures Inv(Apply(s, ReaderCommit))
  {
    hide Wind;
    WindAdvance(s.N, s.base + |s.history.read|, |s.loaded|);
    var s' := Apply(s, ReaderCommit);
    assert s'.history.read + s'.loaded == s.history.read + s.loaded;
    SameContents(s, s');
  }

  /** Pulls, pushes and the reader's abort only copy an offset or drop what was loaded. */
  lemma CopyKeeps(s: Ring, a: Step)
    requires Inv(s) && (a.WriterPull? || a.WriterPush? || a.ReaderPull? || a.ReaderPush? || a.ReaderAbort?)
    ensures Inv(Apply(s, a))
  {
    hide Wind;
    var s' := Apply(s, a);
    SameContents(s, s');
  }

  lemma StepKeeps(s: Ring, a: Step)
    requires Inv(s)
    ensures Inv(Apply(s, a))
    ensures s.history.written <= Apply(s, a).history.written
    ensures s.history.read <= Apply(s, a).history.read
  {
    if !Enabled(s, a) { return; }
    match a
    case WriterStore(w) => StoreKeeps(s, w);
    case ReaderLoad => LoadKeeps(s);
    case WriterCommit => WriterCommitKeeps(s);
    case WriterAbort => WriterAbortKeeps(s);
    case ReaderCommit => ReaderCommitKeeps(s);
    case _ => CopyKeeps(s, a);
  }

  lemma {:induction false} RunKeeps(s: Ring, steps: seq<Step>)
    requires Inv(s)
    ensures Inv(Run(s, steps))
  {
    if steps != [] {
      var front := steps[..|steps| - 1];
      RunKeeps(s, front);
      StepKeeps(Run(s, front), steps[|steps| - 1]);
    }
  }

  /**
   The queue is a FIFO in every interleaving of writer and reader transactions, however
   stale either side's copy of the other's offset is.
   */
  lemma FifoInEveryRun(s: Ring, o: nat, steps: seq<Step>)
    requires Initial(s, o)
    ensures var t := Run(s, steps); var h := t.history;
            // all offsets stay inside the ring
            && t.Bounded()
            // words come out in the order they went in, none lost or repeated
            && h.read + t.loaded <= h.written
            // no word still to be read has been overwritten
            && (forall i :: |h.read| <= i < |h.written| ==> InPlace(t, i) && t.Put()[i] == h.written[i])
            // nothing is loaded before it is published
            && |h.read| + |t.loaded| <= h.published
  {
    InitialHolds(s, o);
    RunKeeps(s, steps);
  }

  // ----- what the transactions achieve -----

  /** After a pull a side knows exactly what the other side has made known. */
  lemma PullExact(s: Ring)
    requires Inv(s)
    ensures var t := Apply(s, ReaderPull);
            && t.history == s.history.(seen := s.history.published)
            && BufDiff(t.N, t.readerRd, t.readerWr) == s.history.published - |s.history.read|
    ensures var t := Apply(s, WriterPull);
            && t.history == s.history.(known := s.history.released)
            && FreeWords(t.N, t.writerRd, t.writerWr) == t.N - 1 - (|s.history.written| - s.history.released)
  {
    CopyKeeps(s, ReaderPull);
    Estimates(Apply(s, ReaderPull));
    CopyKeeps(s, WriterPull);
    Estimates(Apply(s, WriterPull));
  }

  /** After a push a side has made known all it has committed. */
  lemma PushExact(s: Ring)
    requires Inv(s)
    ensures Apply(s, WriterPush).history == s.history.(published := |s.history.written|)
    ensures Apply(s, ReaderPush).history == s.history.(released := |s.history.read|)
    ensures Apply(s, WriterPush).wr == s.Slot(|s.history.written|)
    ensures Apply(s, ReaderPush).rd == s.Slot(|s.history.read|)
  {
    hide Wind;
  }

  /** An abort forgets what was not committed, and both streams stand where they stood. */
  lemma AbortExact(s: Ring)
    requires Inv(s)
    ensures var t := Apply(s, WriterAbort);
            && t.stored == [] && t.history == s.history
            && FreeWords(t.N, t.writerRd, t.writerWr) == FreeWords(s.N, s.writerRd, s.writerWr)
    ensures var t := Apply(s, ReaderAbort);
            && t.loaded == [] && t.history == s.history
            && BufDiff(t.N, t.readerRd, t.readerWr) == BufDiff(s.N, s.readerRd, s.readerWr)
  {
    WriterAbortKeeps(s);
    CopyKeeps(s, ReaderAbort);
    Estimates(s);
    Estimates(Apply(s, WriterAbort));
    Estimates(Apply(s, ReaderAbort));
  }
}
