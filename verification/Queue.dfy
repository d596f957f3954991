/**
 The driver's queue operations, word by word over the bus. Each call is shown to be a
 script of `RingQueue` machine steps, so `FifoInEveryRun` covers it however the slave's
 own steps fall between. `budget` is the number of bus transactions that succeed before
 one fails: every word moved, every offset copied, the mailbox write and the trigger.
 */
module Queue {
  import opened Common
  import opened RingQueue

  function Min(a: nat, b: nat): nat { if a <= b then a else b }

  // ----- bursts as machine scripts -----

  /** Memory after `ws` is stored from slot `start` on, around the end if need be. */
  function Filled(mem: seq<Word>, start: nat, ws: seq<Word>): (mem': seq<Word>)
    requires start < |mem| && |ws| <= |mem|
    ensures |mem'| == |mem|
  {
    if ws == [] then mem
    else Filled(mem, start, ws[..|ws| - 1])[Advance(|mem|, start, |ws| - 1) := ws[|ws| - 1]]
  }

  /** The `n` words from slot `start` on, around the end if need be. */
  function Taken(mem: seq<Word>, start: nat, n: nat): (ws: seq<Word>)
    requires start < |mem| && n <= |mem|
    ensures |ws| == n
  {
    if n == 0 then [] else Taken(mem, start, n - 1) + [mem[Advance(|mem|, start, n - 1)]]
  }

  lemma TakenNone(mem: seq<Word>, start: nat)
    requires start < |mem|
    ensures Taken(mem, start, 0) == []
  {
  }

  /** The machine with `ws` stored but not committed. */
  function StoreAll(s: Ring, ws: seq<Word>): (s': Ring)
    requires s.Bounded() && |ws| < s.N
    ensures s'.Bounded() && s'.N == s.N
  {
    s.(mem := Filled(s.mem, s.writerWr, ws), stored := ws)
  }

  /** The machine with `n` words loaded but not committed. */
  function LoadMany(s: Ring, n: nat): (s': Ring)
    requires s.Bounded() && n < s.N
    ensures s'.Bounded() && s'.N == s.N
  {
    s.(loaded := Taken(s.mem, s.readerRd, n))
  }

  function Stores(ws: seq<Word>): (steps: seq<Step>)
    ensures |steps| == |ws|
  {
    if ws == [] then [] else Stores(ws[..|ws| - 1]) + [WriterStore(ws[|ws| - 1])]
  }

  function Loads(n: nat): (steps: seq<Step>)
    ensures |steps| == n
  {
    if n == 0 then [] else Loads(n - 1) + [ReaderLoad]
  }

  lemma {:induction false} StoreAllIsScript(s: Ring, ws: seq<Word>)
    requires s.Bounded() && s.stored == [] && |ws| <= FreeWords(s.N, s.writerRd, s.writerWr)
    ensures StoreAll(s, ws) == Run(s, Stores(ws))
  {
    if ws == [] {
    } else {
      var front, w := ws[..|ws| - 1], ws[|ws| - 1];
      StoreAllIsScript(s, front);
      assert Stores(ws)[..|ws| - 1] == Stores(front);
      StoreLast(s, ws);
      hide Apply, StoreAll, Enabled;
    }
  }

  lemma StoreLast(s: Ring, ws: seq<Word>)
    requires s.Bounded() && s.stored == [] && 0 < |ws| <= FreeWords(s.N, s.writerRd, s.writerWr)
    ensures Apply(StoreAll(s, ws[..|ws| - 1]), WriterStore(ws[|ws| - 1])) == StoreAll(s, ws)
  {
    assert ws[..|ws| - 1] + [ws[|ws| - 1]] == ws;
  }

  lemma {:induction false} LoadManyIsScript(s: Ring, n: nat)
    requires s.Bounded() && s.loaded == [] && n <= BufDiff(s.N, s.readerRd, s.readerWr)
    ensures LoadMany(s, n) == Run(s, Loads(n))
  {
    if n > 0 {
      LoadManyIsScript(s, n - 1);
      assert Loads(n)[..n - 1] == Loads(n - 1);
      LoadLast(s, n);
      hide Apply, LoadMany, Enabled;
    }
  }

  lemma LoadLast(s: Ring, n: nat)
    requires s.Bounded() && s.loaded == [] && 0 < n <= BufDiff(s.N, s.readerRd, s.readerWr)
    ensures Apply(LoadMany(s, n - 1), ReaderLoad) == LoadMany(s, n)
  {
  }

  // ----- what a call means for the stream -----

  /** Storing, committing and publishing `ws`. */
  function Publish(s: Ring, ws: seq<Word>): (s': Ring)
    requires s.Bounded() && |ws| < s.N
    ensures s'.Bounded() && s'.N == s.N
  {
    Apply(Apply(StoreAll(s, ws), WriterCommit), WriterPush)
  }

  /** A complete write: exactly its words join the stream, and all are published. */
  lemma WriteAppends(s: Ring, ws: seq<Word>)
    requires Inv(s) && s.stored == [] && |ws| <= FreeWords(s.N, s.writerRd, s.writerWr)
    ensures var t := Publish(s, ws);
            && Inv(t) && t.stored == []
            && t.history == s.history.(written := s.history.written + ws, published := |s.history.written| + |ws|)
            && t == t.(loaded := s.loaded, rd := s.rd, readerRd := s.readerRd, readerWr := s.readerWr)
  {
    StoreAllIsScript(s, ws);
    RunKeeps(s, Stores(ws));
    StepKeeps(StoreAll(s, ws), WriterCommit);
    StepKeeps(Apply(StoreAll(s, ws), WriterCommit), WriterPush);
  }

  lemma LoadManyKeeps(s: Ring, n: nat)
    requires Inv(s) && s.loaded == [] && n <= BufDiff(s.N, s.readerRd, s.readerWr)
    ensures n < s.N && Inv(LoadMany(s, n))
    ensures s.history.read + LoadMany(s, n).loaded <= s.history.written
  {
    LoadManyIsScript(s, n);
    RunKeeps(s, Loads(n));
  }

  /** A complete read: it hands out the words of the stream that follow those already read. */
  lemma ReadTakes(s: Ring, n: nat)
    requires Inv(s) && s.loaded == [] && n <= BufDiff(s.N, s.readerRd, s.readerWr)
    ensures Inv(Apply(LoadMany(s, n), ReaderCommit))
    ensures var t := Apply(LoadMany(s, n), ReaderCommit); var r := |s.history.read|;
            && t.loaded == [] && r + n <= |s.history.written|
            && LoadMany(s, n).loaded == s.history.written[r..r + n]
            && t.history == s.history.(read := s.history.written[..r + n])
            && t == t.(mem := s.mem, stored := s.stored, wr := s.wr, rd := s.rd, writerWr := s.writerWr)
  {
    LoadManyKeeps(s, n);
    var t := LoadMany(s, n);
    ReaderCommitKeeps(t);
    assert s.history.read + t.loaded == s.history.written[..|s.history.read| + n];
  }

  /**
   Nothing gets stuck: from any state of the queue, once the writer pushes, the reader pulls and takes
   all it then sees, it has read all that was written; and once that is pushed and pulled the other
   way, the writer has the whole ring.
   */
  lemma EverythingArrives(s: Ring)
    requires Inv(s) && s.loaded == []
    ensures var t := Apply(Apply(s, WriterPush), ReaderPull);
            var n := BufDiff(t.N, t.readerRd, t.readerWr);
            && n < t.N && Inv(t) && t.loaded == []
            && var u := Apply(LoadMany(t, n), ReaderCommit);
            && u.history.read == s.history.written
            && var v := Apply(Apply(u, ReaderPush), WriterPull);
            FreeWords(v.N, v.writerRd, v.writerWr) == s.N - 1
  {
    hide Apply, LoadMany;
    PushExact(s);
    StepKeeps(s, WriterPush);
    var s1 := Apply(s, WriterPush);
    PullExact(s1);
    StepKeeps(s1, ReaderPull);
    PushesLeave(s, s1);
    var t := Apply(s1, ReaderPull);
    var n := BufDiff(t.N, t.readerRd, t.readerWr);
    ReadTakes(t, n);
    var u := Apply(LoadMany(t, n), ReaderCommit);
    assert u.history.read == s.history.written[..|s.history.written|];
    PushExact(u);
    StepKeeps(u, ReaderPush);
    PullExact(Apply(u, ReaderPush));
  }

  lemma PushesLeave(s: Ring, s1: Ring)
    requires s.Bounded() && s1 == Apply(s, WriterPush)
    ensures s1.loaded == s.loaded && s1.N == s.N
    ensures Apply(s1, ReaderPull).loaded == s.loaded
  {
  }

  /**
   A write that came back with EAGAIN has pulled the read offset. A retry of `num` words is
   accepted exactly when the words the reader had released by then leave that much room.
   */
  lemma RetryAccepted(s: Ring, num: nat)
    requires Inv(s) && s.stored == []
    ensures var t := Apply(s, WriterPull);
            num <= FreeWords(t.N, t.writerRd, t.writerWr) <==>
            num <= s.N - 1 - (|s.history.written| - s.history.released)
  {
    PullExact(s);
  }

  lemma RunSnoc(s: Ring, steps: seq<Step>, a: Step)
    requires s.Bounded()
    ensures Run(s, steps + [a]) == Apply(Run(s, steps), a)
  {
    assert (steps + [a])[..|steps|] == steps;
  }

  /** A refused write that would fit: the reader has released the word, the writer does not know yet. */
  lemma RefusedExample(w: Word)
    ensures var s := Ring([0, 0], 0, 0, 0, 0, [], 0, 0, [], 0, History([], [], 0, 0, 0, 0));
            var t := Run(s, [WriterStore(w), WriterCommit, WriterPush,
                             ReaderPull, ReaderLoad, ReaderCommit, ReaderPush]);
            && Initial(s, 0) && t.stored == []
            && 1 > FreeWords(t.N, t.writerRd, t.writerWr)
            && 1 <= t.N - 1 - (|t.history.written| - t.history.released)
  {
    var s := Ring([0, 0], 0, 0, 0, 0, [], 0, 0, [], 0, History([], [], 0, 0, 0, 0));
    assert Run(s, []) == s;
    hide Run;
    RunSnoc(s, [], WriterStore(w));
    RunSnoc(s, [] + [WriterStore(w)], WriterCommit);
    var steps := [] + [WriterStore(w)] + [WriterCommit];
    RunSnoc(s, steps, WriterPush);
    RunSnoc(s, steps + [WriterPush], ReaderPull);
    steps := steps + [WriterPush] + [ReaderPull];
    assert Run(s, steps) == Ring([w, 0], 0, 1, 0, 1, [], 0, 1, [], 0, History([w], [], 1, 1, 0, 0));
    RunSnoc(s, steps, ReaderLoad);
    RunSnoc(s, steps + [ReaderLoad], ReaderCommit);
    RunSnoc(s, steps + [ReaderLoad] + [ReaderCommit], ReaderPush);
    assert steps + [ReaderLoad] + [ReaderCommit] + [ReaderPush]
        == [WriterStore(w), WriterCommit, WriterPush, ReaderPull, ReaderLoad, ReaderCommit, ReaderPush];
  }

  // ----- the driver -----

  class Queue {
    const mem: array<Word>     // the ring, in slave memory
    var slaveRd: nat           // read offset in slave memory
    var slaveWr: nat           // write offset in slave memory
    var rdOffset: nat          // the driver's copies
    var wrOffset: nat
    var blockedWriter: bool
    ghost var ring: Ring       // the same queue as a machine state, with both sides' progress

    ghost predicate Mirrors()
      reads this, mem
    {
      ring.mem == mem[..] && ring.rd == slaveRd && ring.wr == slaveWr && ring.Bounded()
    }

    /** The driver writes this queue (master to slave). */
    ghost predicate Writer()
      reads this, mem
    {
      Mirrors() && ring.writerRd == rdOffset && ring.writerWr == wrOffset
    }

    /** The driver reads this queue (slave to master). */
    ghost predicate Reader()
      reads this, mem
    {
      Mirrors() && ring.readerRd == rdOffset && ring.readerWr == wrOffset
    }

    constructor (memory: array<Word>, offset: nat)
      requires offset < memory.Length
      ensures mem == memory && Writer() && Reader() && Initial(ring, offset)
      ensures !blockedWriter
    {
      mem := memory;
      slaveRd, slaveWr, rdOffset, wrOffset := offset, offset, offset, offset;
      blockedWriter := false;
      ring := Ring(memory[..], offset, offset, offset, offset, [], offset, offset, [], offset,
                   History([], [], 0, 0, 0, 0));
    }

    method PullRdPtr(budget: nat) returns (ret: int)
      requires Writer()
      modifies this`rdOffset, this`ring
      ensures Writer()
      ensures budget == 0 ==> ret == -EIO && ring == old(ring)
      ensures budget > 0 ==> ret == 0 && rdOffset == slaveRd && ring == Apply(old(ring), WriterPull)
    {
      if budget == 0 { return -EIO; }
      rdOffset, ring := slaveRd, Apply(ring, WriterPull);
      ret := 0;
    }

    method PullWrPtr(budget: nat) returns (ret: int)
      requires Reader()
      modifies this`wrOffset, this`ring
      ensures Reader()
      ensures budget == 0 ==> ret == -EIO && ring == old(ring)
      ensures budget > 0 ==> ret == 0 && wrOffset == slaveWr && ring == Apply(old(ring), ReaderPull)
    {
      if budget == 0 { return -EIO; }
      wrOffset, ring := slaveWr, Apply(ring, ReaderPull);
      ret := 0;
    }

    /** Copies the write offset out, then rings the slave: mailbox bit and trigger. */
    method PushWrPtr(budget: nat) returns (ret: int)
      requires Writer()
      modifies this`slaveWr, this`ring
      ensures Writer()
      ensures ring == if budget == 0 then old(ring) else Apply(old(ring), WriterPush)
      ensures slaveWr == if budget == 0 then old(slaveWr) else wrOffset
      ensures ret == if budget >= 3 then 0 else -EIO
    {
      if budget == 0 { return -EIO; }
      slaveWr, ring := wrOffset, Apply(ring, WriterPush);
      ret := if budget < 3 then -EIO else 0;
    }

    method PushRdPtr(budget: nat) returns (ret: int)
      requires Reader()
      modifies this`slaveRd, this`ring
      ensures Reader()
      ensures ring == if budget == 0 then old(ring) else Apply(old(ring), ReaderPush)
      ensures slaveRd == if budget == 0 then old(slaveRd) else rdOffset
      ensures ret == if budget >= 3 then 0 else -EIO
    {
      if budget == 0 { return -EIO; }
      slaveRd, ring := rdOffset, Apply(ring, ReaderPush);
      ret := if budget < 3 then -EIO else 0;
    }

    /** One burst of `num` words to consecutive addresses; it stops at the first failure. */
    method BusWrite(offset: nat, buff: seq<Word>, from: nat, num: nat, budget: nat,
                    ghost image: seq<Word>, ghost start: nat)
      returns (ok: bool)
      requires from + num <= |buff| <= |image| == mem.Length && start < mem.Length
      requires mem[..] == Filled(image, start, buff[..from])
      requires offset + num <= mem.Length && (num > 0 ==> offset == Advance(mem.Length, start, from))
      modifies mem
      ensures ok == (budget >= num)
      ensures mem[..] == Filled(image, start, buff[..from + Min(num, budget)])
    {
      var n := Min(num, budget);
      for i := 0 to n
        invariant mem[..] == Filled(image, start, buff[..from + i])
      {
        assert buff[..from + i + 1][..from + i] == buff[..from + i];
        mem[offset + i] := buff[from + i];
      }
      ok := budget >= num;
    }

    /** The bursts of a write: up to the end of the ring, then on from its start. */
    method WriteBursts(buff: seq<Word>, budget: nat) returns (ok: bool, words: nat, writeOffset: nat)
      requires rdOffset < mem.Length && wrOffset < mem.Length
      requires |buff| <= FreeWords(mem.Length, rdOffset, wrOffset)
      modifies mem
      ensures ok == (budget >= |buff|)
      ensures mem[..] == Filled(old(mem[..]), wrOffset, buff[..Min(|buff|, budget)])
      ensures ok ==> words == |buff| && writeOffset == Advance(mem.Length, wrOffset, |buff|)
    {
      ghost var image := mem[..];
      var num := |buff|;
      var readOffset := rdOffset;
      words, writeOffset := 0, wrOffset;
      if writeOffset >= readOffset {
        var wordsToEnd := mem.Length - writeOffset;
        var wordsAvail := if readOffset == 0 then wordsToEnd - 1 else wordsToEnd;
        words := Min(num, wordsAvail);
        ok := BusWrite(writeOffset, buff, 0, words, budget, image, wrOffset);
        if !ok { return; }
        num := num - words;
        writeOffset := writeOffset + words;
        if writeOffset == mem.Length { writeOffset := 0; }
      }
      if writeOffset < readOffset && num > 0 {
        var room := readOffset - writeOffset - 1;
        var n := Min(num, room);
        ok := BusWrite(writeOffset, buff, words, n, budget - words, image, wrOffset);
        if !ok { return; }
        words, num := words + n, num - n;
        writeOffset := writeOffset + n;
      }
      ok := true;
    }

    method Write(buff: seq<Word>, budget: nat) returns (ret: int)
      requires Writer() && ring.stored == []
      modifies this, mem
      ensures Writer() && ring.stored == []
      // too little room by the driver's copy: nothing is written, the read offset is refreshed
      ensures |buff| > FreeWords(mem.Length, old(rdOffset), old(wrOffset)) ==>
        && ret == (if budget == 0 then -EIO else -EAGAIN)
        && ring == (if budget == 0 then old(ring) else Apply(old(ring), WriterPull))
        && blockedWriter == (old(blockedWriter) || budget > 0)
      // room enough: all words are stored, committed and published
      ensures |buff| <= FreeWords(mem.Length, old(rdOffset), old(wrOffset)) && budget > |buff| ==>
        && ret == (if budget >= |buff| + 3 then |buff| else -EIO)
        && ring == Publish(old(ring), buff)
      // a bus failure while storing leaves the stream as it was
      ensures |buff| <= FreeWords(mem.Length, old(rdOffset), old(wrOffset)) && budget < |buff| ==>
        && ret == -EIO
        && ring == Apply(StoreAll(old(ring), buff[..budget]), WriterAbort)
      // a bus failure at the offset leaves the words committed but not yet published
      ensures |buff| <= FreeWords(mem.Length, old(rdOffset), old(wrOffset)) && budget == |buff| ==>
        && ret == -EIO
        && ring == Apply(StoreAll(old(ring), buff), WriterCommit)
    {
      var avail := FreeWords(mem.Length, rdOffset, wrOffset);
      if avail < |buff| {
        ret := PullRdPtr(budget);
        if ret < 0 { return; }
        // `avail` still is the estimate made before the pull
        blockedWriter := true;
        return -EAGAIN;
      }
      var ok, words, writeOffset := WriteBursts(buff, budget);
      ring := StoreAll(ring, buff[..Min(|buff|, budget)]);
      if !ok {
        ring := Apply(ring, WriterAbort);
        return -EIO;
      }
      assert buff[..|buff|] == buff;
      wrOffset, ring := writeOffset, Apply(ring, WriterCommit);
      ret := PushWrPtr(budget - words);
      if ret < 0 { return; }
      ret := words;
    }

    /** One burst read of `num` words from consecutive addresses. */
    method BusRead(offset: nat, buf: array<Word>, from: nat, num: nat, budget: nat,
                   ghost image: seq<Word>, ghost start: nat)
      returns (ok: bool)
      requires buf != mem && from + num <= buf.Length && from + num <= mem.Length && start < mem.Length
      requires image == mem[..] && buf[..from] == Taken(image, start, from)
      requires offset + num <= mem.Length && (num > 0 ==> offset == Advance(mem.Length, start, from))
      modifies buf
      ensures ok == (budget >= num)
      ensures buf[..from + Min(num, budget)] == Taken(image, start, from + Min(num, budget))
      ensures forall i :: from + Min(num, budget) <= i < buf.Length ==> buf[i] == old(buf[i])
    {
      var n := Min(num, budget);
      for i := 0 to n
        invariant buf[..from + i] == Taken(image, start, from + i)
        invariant forall j :: from + i <= j < buf.Length ==> buf[j] == old(buf[j])
      {
        buf[from + i] := mem[offset + i];
        assert buf[..from + i + 1] == buf[..from + i] + [buf[from + i]];
      }
      ok := budget >= num;
    }

    /** The bursts of a read: up to the end of the ring, then on from its start. */
    method ReadBursts(buf: array<Word>, num: nat, budget: nat) returns (ok: bool, words: nat, readOffset: nat)
      requires rdOffset < mem.Length && wrOffset < mem.Length && buf != mem && num <= buf.Length
      modifies buf
      ensures var want := Min(num, BufDiff(mem.Length, rdOffset, wrOffset));
        && ok == (budget >= want)
        && (ok ==> words == want && readOffset == Advance(mem.Length, rdOffset, want))
        && buf[..Min(want, budget)] == Taken(mem[..], rdOffset, Min(want, budget))
        && forall i :: Min(want, budget) <= i < buf.Length ==> buf[i] == old(buf[i])
    {
      hide Taken;
      ghost var image := mem[..];
      words, readOffset := 0, rdOffset;
      TakenNone(image, rdOffset);
      assert buf[..0] == [];
      if readOffset > wrOffset {
        words := Min(num, mem.Length - readOffset);
        ok := BusRead(readOffset, buf, 0, words, budget, image, rdOffset);
        if !ok { return; }
        readOffset := readOffset + words;
        if readOffset == mem.Length { readOffset := 0; }
      }
      if words < num {
        var n := Min(num - words, wrOffset - readOffset);
        ok := BusRead(readOffset, buf, words, n, budget - words, image, rdOffset);
        if !ok { return; }
        words := words + n;
        readOffset := readOffset + n;
      }
      ok := true;
    }

    method Read(buf: array<Word>, num: nat, budget: nat) returns (ret: int)
      requires Reader() && ring.loaded == [] && buf != mem && num <= buf.Length
      modifies this`rdOffset, this`ring, buf
      ensures Reader() && ring.loaded == []
      // the next words, as many as asked for and visible, in order
      ensures var want := Min(num, BufDiff(mem.Length, old(rdOffset), wrOffset));
        budget >= want ==>
          && ret == want
          && ring == Apply(LoadMany(old(ring), want), ReaderCommit)
          && buf[..want] == LoadMany(old(ring), want).loaded
          && (forall i :: want <= i < buf.Length ==> buf[i] == old(buf[i]))
      // a bus failure takes nothing off the queue
      ensures budget < Min(num, BufDiff(mem.Length, old(rdOffset), wrOffset)) ==>
        && ret == -EIO
        && ring == Apply(LoadMany(old(ring), budget), ReaderAbort)
    {
      ghost var want := Min(num, BufDiff(mem.Length, rdOffset, wrOffset));
      var ok, words, readOffset := ReadBursts(buf, num, budget);
      ring := LoadMany(ring, Min(want, budget));
      if !ok {
        ring := Apply(ring, ReaderAbort);
        return -EIO;
      }
      rdOffset, ring := readOffset, Apply(ring, ReaderCommit);
      ret := words;
    }
  }
}
