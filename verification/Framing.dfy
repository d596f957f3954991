/**
 The response parser that sits on the slave-to-master queue. Words arrive in batches; a
 call takes what is visible, may stop between a header and its body, and resumes there on
 the next call. The queue itself hands out the slave's words in order (`Queue.ReadTakes`),
 so here it is a position in the stream of all words the slave ever writes.
 */
module Framing {
  import opened Common
  import opened RingQueue

  const HDR_WORDS := 2
  const GRP_QUEUE := 0
  const QUEUE_INIT_RSP := 1
  const QUEUE_RESET_RSP := 4

  datatype Header = Header(len: nat, grp: nat, typ: nat, result: Word)

  /** `len` is the low half word, group and type the two bytes above it. */
  function Decode(w0: Word, w1: Word): (h: Header)
    ensures h.len < 0x1_0000
  {
    var w := w0 as nat;
    Header(w % 0x1_0000, (w / 0x1_0000) % 0x100, w / 0x100_0000, w1)
  }

  /** Words of the body: `len` counts the eight header bytes, and the difference is unsigned. */
  function BodyWords(len: nat): (n: nat)
    requires len < 0x1_0000
  {
    var bytes := if len >= 8 then len - 8 else len + 0x1_0000_0000 - 8;
    bytes / 4 + if bytes % 4 != 0 then 1 else 0
  }

  datatype Message = Message(hdr: Header, body: seq<Word>)

  datatype Stop = NeedHeader | NeedBody | Unsupported

  /** `at` is the position of the first word that belongs to no message yet. */
  datatype Parsed = Parsed(msgs: seq<Message>, at: nat, stop: Stop)

  function After(ms: seq<Message>, p: Parsed): Parsed {
    Parsed(ms + p.msgs, p.at, p.stop)
  }

  lemma AfterAfter(ms: seq<Message>, ms': seq<Message>, p: Parsed)
    ensures After(ms, After(ms', p)) == After(ms + ms', p)
  {
    assert ms + (ms' + p.msgs) == (ms + ms') + p.msgs;
  }

  predicate Supported(typ: nat) { typ == QUEUE_INIT_RSP || typ == QUEUE_RESET_RSP }

  /** Queue-group responses are handled in place; nothing reads a body for them. */
  function Taken(h: Header): (n: nat)
    requires h.len < 0x1_0000
    ensures n <= BodyWords(h.len)
  {
    if h.grp == GRP_QUEUE then 0 else BodyWords(h.len)
  }

  /**
   What the words from `start` on amount to while the first `v` words of the stream are visible.
   A header of length 0 is taken for no header pending, so it is read and forgotten.
   */
  datatype Head = Complete(msg: Message, next: nat) | Empty(next: nat) | Incomplete(stop: Stop)

  function HeadAt(stream: seq<Word>, start: nat, v: nat): (h: Head)
    requires start <= v <= |stream|
    ensures !h.Incomplete? ==> start < h.next <= v
  {
    if v - start < HDR_WORDS then Incomplete(NeedHeader)
    else Framed(Decode(stream[start], stream[start + 1]), stream, start + HDR_WORDS, v)
  }

  function Framed(hdr: Header, stream: seq<Word>, body: nat, v: nat): (h: Head)
    requires body <= v <= |stream| && hdr.len < 0x1_0000
    ensures !h.Incomplete? ==> body <= h.next <= v
  {
    if hdr.len == 0 then Empty(body)
    else if v - body < BodyWords(hdr.len) then Incomplete(NeedBody)
    else if hdr.grp == GRP_QUEUE && !Supported(hdr.typ) then Incomplete(Unsupported)
    else Complete(Message(hdr, stream[body..body + Taken(hdr)]), body + Taken(hdr))
  }

  /** The one-shot parse of the words from `start` up to `v`. */
  function Parse(stream: seq<Word>, start: nat, v: nat): (p: Parsed)
    requires start <= v <= |stream|
    ensures start <= p.at <= v
    decreases v - start
  {
    match HeadAt(stream, start, v)
    case Incomplete(stop) => Parsed([], start, stop)
    case Complete(m, next) => After([m], Parse(stream, next, v))
    case Empty(next) => Parse(stream, next, v)
  }

  /** Parsing with more words visible continues from where parsing with fewer stopped. */
  lemma {:induction false} ParseExtends(stream: seq<Word>, start: nat, v: nat, v': nat)
    requires start <= v <= v' <= |stream|
    ensures var p := Parse(stream, start, v);
            Parse(stream, start, v') == After(p.msgs, Parse(stream, p.at, v'))
    decreases v - start
  {
    match HeadAt(stream, start, v)
    case Complete(m, next) =>
      ParseExtends(stream, next, v, v');
      var q := Parse(stream, next, v);
      AfterAfter([m], q.msgs, Parse(stream, q.at, v'));
    case Empty(next) => ParseExtends(stream, next, v, v');
    case Incomplete(_) =>
  }

  /** From the point where the parse stops there is no further message. */
  lemma {:induction false} ParseStops(stream: seq<Word>, start: nat, v: nat)
    requires start <= v <= |stream|
    ensures var p := Parse(stream, start, v); HeadAt(stream, p.at, v) == Incomplete(p.stop)
    decreases v - start
  {
    match HeadAt(stream, start, v)
    case Complete(m, next) => ParseStops(stream, next, v);
    case Empty(next) => ParseStops(stream, next, v);
    case Incomplete(_) =>
  }

  /** Seeing more words only adds messages, and a bad header stops the parse for good. */
  lemma ParseMonotone(stream: seq<Word>, v: nat, v': nat)
    requires v <= v' <= |stream|
    ensures var p, p' := Parse(stream, 0, v), Parse(stream, 0, v');
            && p.msgs <= p'.msgs && p.at <= p'.at
            && (p.stop == Unsupported ==> p == p')
  {
    ParseExtends(stream, 0, v, v');
    ParseStops(stream, 0, v);
  }

  // ----- what a message looks like in words -----

  /** `words` is the least number of 32-bit words that hold `bytes`. */
  predicate Covers(words: nat, bytes: nat) { 4 * words >= bytes && forall n: nat :: 4 * n >= bytes ==> n >= words }

  lemma BodyCovered(len: nat)
    requires 8 <= len < 0x1_0000
    ensures Covers(BodyWords(len), len - 8)
  {
  }

  /** The two words of a header: length, group and type from the low end of the first, the result in the second. */
  predicate HeaderWords(h: Header, w0: Word, w1: Word) {
    && w0 as nat == h.len + 0x1_0000 * h.grp + 0x100_0000 * h.typ
    && h.len < 0x1_0000 && h.grp < 0x100 && h.typ < 0x100 && h.result == w1
  }

  lemma DecodeExact(h: Header, w0: Word, w1: Word)
    ensures Decode(w0, w1) == h <==> HeaderWords(h, w0, w1)
  {
    var w, high := w0 as nat, w0 as nat / 0x1_0000;
    assert w == 0x1_0000 * high + w % 0x1_0000;
    assert high / 0x100 == w / 0x100_0000;
    assert high == 0x100 * (high / 0x100) + high % 0x100;
    if HeaderWords(h, w0, w1) {
      assert w == 0x1_0000 * (h.grp + 0x100 * h.typ) + h.len;
      assert high == h.grp + 0x100 * h.typ;
    }
  }

  /** A length shorter than the header asks for more than a ring of 16-bit size can hold. */
  lemma ShortNeverFits(len: nat)
    requires len < 8
    ensures BodyWords(len) > 0x1_0000
  {
  }

  /** A message that the parser hands over: a queue response it supports, or a body as long as announced. */
  predicate Sendable(m: Message) {
    && 0 < m.hdr.len < 0x1_0000 && m.hdr.grp < 0x100 && m.hdr.typ < 0x100
    && if m.hdr.grp == 0 then m.body == [] && (m.hdr.typ == 1 || m.hdr.typ == 4)
       else m.hdr.len >= 8 ==> Covers(|m.body|, m.hdr.len - 8)
  }

  /** Every message of a parse is one; this holds of all that `Receiver` dispatches. */
  lemma {:induction false} ParsedSendable(stream: seq<Word>, start: nat, v: nat)
    requires start <= v <= |stream|
    ensures forall m :: m in Parse(stream, start, v).msgs ==> Sendable(m)
    decreases v - start
  {
    hide Decode, Sendable;
    match HeadAt(stream, start, v)
    case Complete(m, next) =>
      HeadSendable(stream, start, v);
      ParsedSendable(stream, next, v);
    case Empty(next) => ParsedSendable(stream, next, v);
    case Incomplete(_) =>
  }

  lemma HeadSendable(stream: seq<Word>, start: nat, v: nat)
    requires start <= v <= |stream| && HeadAt(stream, start, v).Complete?
    ensures Sendable(HeadAt(stream, start, v).msg)
  {
    var h := HeadAt(stream, start, v).msg.hdr;
    DecodeExact(h, stream[start], stream[start + 1]);
    if h.len >= 8 { BodyCovered(h.len); }
  }

  /** A message whose length field says what follows its header. */
  predicate Plain(m: Message) { Sendable(m) && m.hdr.len >= 8 && (m.hdr.grp == GRP_QUEUE ==> m.hdr.len == 8) }

  /** A header as the slave writes it. */
  function EncodeHeader(m: Message): (ws: seq<Word>)
    requires Plain(m)
    ensures |ws| == HDR_WORDS && HeaderWords(m.hdr, ws[0], ws[1])
  {
    [(m.hdr.len + 0x1_0000 * m.hdr.grp + 0x100_0000 * m.hdr.typ) as Word, m.hdr.result]
  }

  /** The words of a sequence of messages, one after the other. */
  function Encode(ms: seq<Message>): (ws: seq<Word>)
    requires forall m :: m in ms ==> Plain(m)
  {
    if ms == [] then [] else EncodeHeader(ms[0]) + ms[0].body + Encode(ms[1..])
  }

  /** What is written as messages is parsed as these messages, all of them and nothing else. */
  lemma ParseEncoded(ms: seq<Message>)
    requires forall m :: m in ms ==> Plain(m)
    ensures var ws := Encode(ms); Parse(ws, 0, |ws|) == Parsed(ms, |ws|, NeedHeader)
  {
    EncodedAfter([], ms);
    assert [] + Encode(ms) == Encode(ms);
  }

  lemma {:induction false} EncodedAfter(before: seq<Word>, ms: seq<Message>)
    requires forall m :: m in ms ==> Plain(m)
    ensures var ws := before + Encode(ms); Parse(ws, |before|, |ws|) == Parsed(ms, |ws|, NeedHeader)
    decreases |ms|
  {
    var ws := before + Encode(ms);
    if ms == [] {
      assert HeadAt(ws, |before|, |ws|) == Incomplete(NeedHeader);
    } else {
      hide Plain, Decode, BodyWords, EncodeHeader, HeadAt;
      var m, rest := ms[0], ms[1..];
      var first := before + EncodeHeader(m) + m.body;
      assert ws == first + Encode(rest);
      EncodedHead(before, m, Encode(rest));
      EncodedAfter(first, rest);
      assert [m] + rest == ms;
    }
  }

  lemma EncodedHead(before: seq<Word>, m: Message, rest: seq<Word>)
    requires Plain(m)
    ensures var first := before + EncodeHeader(m) + m.body; var ws := first + rest;
            HeadAt(ws, |before|, |ws|) == Complete(m, |first|)
  {
    var first := before + EncodeHeader(m) + m.body;
    var ws, at := first + rest, |before|;
    DecodeExact(m.hdr, ws[at], ws[at + 1]);
    BodyCovered(m.hdr.len);
    assert ws[at + 2..at + 2 + |m.body|] == m.body;
  }

  /** How far the slave can write: not beyond what there is, nor beyond the room it has. */
  function Reach(stream: seq<Word>, pushed: nat, capacity: nat, w: nat): (r: nat)
    ensures r <= |stream| && r <= w && r <= pushed + capacity
  {
    var most := if |stream| <= pushed + capacity then |stream| else pushed + capacity;
    if w <= most then w else most
  }

  /** Words that the message at the end of the parse takes, as far as that is known. */
  function Needed(stream: seq<Word>, p: Parsed): (n: nat)
    requires p.at <= |stream| && (p.stop != NeedHeader ==> p.at + HDR_WORDS <= |stream|)
  {
    HDR_WORDS + if p.stop == NeedHeader then 0 else BodyWords(Decode(stream[p.at], stream[p.at + 1]).len)
  }

  /**
   When the parse waits for a body, with the words before `pushed` released, that message will be
   dispatched exactly if it fits the room the slave has, it is written in full, and it is supported.
   */
  lemma FitsIffCompletes(stream: seq<Word>, v: nat, pushed: nat, capacity: nat)
    requires v <= |stream| && Parse(stream, 0, v).stop == NeedBody
    requires pushed <= Parse(stream, 0, v).at && v <= pushed + capacity
    ensures var p := Parse(stream, 0, v);
            && p.at + 1 < v
            && var h, n := Decode(stream[p.at], stream[p.at + 1]), Needed(stream, p);
            && (|Parse(stream, 0, Reach(stream, pushed, capacity, |stream|)).msgs| > |p.msgs| <==>
                  && (p.at - pushed) + n <= capacity && p.at + n <= |stream|
                  && (h.grp != GRP_QUEUE || Supported(h.typ)))
  {
    hide Decode, BodyWords;
    var p, reach := Parse(stream, 0, v), Reach(stream, pushed, capacity, |stream|);
    ParseStops(stream, 0, v);
    ParseExtends(stream, 0, v, reach);
  }

  /**
   When everything is visible that the slave can write, the parse is that of the whole stream, unless
   it waits for a message that the slave has the words of but no room for.
   */
  lemma WholeStream(stream: seq<Word>, v: nat, pushed: nat, capacity: nat)
    requires v == Reach(stream, pushed, capacity, |stream|) && pushed <= Parse(stream, 0, v).at
    ensures var p := Parse(stream, 0, v);
            && (p.stop != NeedHeader ==> p.at + HDR_WORDS <= v)
            && (Parse(stream, 0, |stream|) != p <==> p.stop != Unsupported && p.at + Needed(stream, p) <= |stream|)
            && (Parse(stream, 0, |stream|) != p ==> (p.at - pushed) + Needed(stream, p) > capacity)
  {
    hide Decode, BodyWords;
    ParseStops(stream, 0, v);
    ParseExtends(stream, 0, v, |stream|);
  }

  /** Words that have to be visible to get over the message or empty header at `start`. */
  function Span(stream: seq<Word>, start: nat): nat
    requires start + HDR_WORDS <= |stream|
  {
    var len := Decode(stream[start], stream[start + 1]).len;
    HDR_WORDS + if len == 0 then 0 else BodyWords(len)
  }

  /**
   Whether all messages from `start` on come through a ring of this capacity, with the words before
   `pushed` released: each fits together with the empty headers before it, unless none follows.
   */
  predicate Deliverable(stream: seq<Word>, pushed: nat, start: nat, capacity: nat)
    requires pushed <= start <= |stream|
    decreases |stream| - start
  {
    match HeadAt(stream, start, |stream|)
    case Incomplete(_) => true
    case Complete(_, next) =>
      (start - pushed) + Span(stream, start) <= capacity && Deliverable(stream, next, next, capacity)
    case Empty(next) =>
      if (start - pushed) + HDR_WORDS <= capacity then Deliverable(stream, pushed, next, capacity)
      else Parse(stream, next, |stream|).msgs == []
  }

  /** What is visible is got over, and comes out the same with more of the stream visible. */
  lemma DeliverableNext(stream: seq<Word>, pushed: nat, start: nat, v: nat, capacity: nat)
    requires pushed <= start <= v <= |stream| && v <= pushed + capacity && !HeadAt(stream, start, v).Incomplete?
    ensures var h := HeadAt(stream, start, v);
            Deliverable(stream, pushed, start, capacity) <==>
              Deliverable(stream, if h.Complete? then h.next else pushed, h.next, capacity)
  {
    hide Decode, BodyWords;
  }

  /** With all visible that the slave can write and nothing to take, it is settled. */
  lemma DeliverableEnd(stream: seq<Word>, pushed: nat, start: nat, v: nat, capacity: nat)
    requires pushed <= start <= v == Reach(stream, pushed, capacity, |stream|)
    requires HeadAt(stream, start, v).Incomplete?
    ensures Deliverable(stream, pushed, start, capacity) <==> Parse(stream, start, |stream|).msgs == []
  {
    hide Decode, BodyWords;
  }

  lemma Settled(stream: seq<Word>, v: nat, pushed: nat, capacity: nat)
    requires v == Reach(stream, pushed, capacity, |stream|) && pushed <= Parse(stream, 0, v).at
    ensures var p := Parse(stream, 0, v);
            p.msgs == Parse(stream, 0, |stream|).msgs <==> Deliverable(stream, pushed, p.at, capacity)
  {
    hide Reach, Deliverable;
    var p := Parse(stream, 0, v);
    ParseStops(stream, 0, v);
    ParseExtends(stream, 0, v, |stream|);
    DeliverableEnd(stream, pushed, p.at, v, capacity);
  }

  /** Without empty headers, it is enough that every message fits. */
  predicate AllFit(stream: seq<Word>, start: nat, capacity: nat)
    requires start <= |stream|
    decreases |stream| - start
  {
    match HeadAt(stream, start, |stream|)
    case Incomplete(_) => true
    case Complete(_, next) => Span(stream, start) <= capacity && AllFit(stream, next, capacity)
    case Empty(_) => false
  }

  lemma {:induction false} AllFitDeliverable(stream: seq<Word>, start: nat, capacity: nat)
    requires start <= |stream| && AllFit(stream, start, capacity)
    ensures Deliverable(stream, start, start, capacity)
    decreases |stream| - start
  {
    hide Decode, BodyWords, Span;
    match HeadAt(stream, start, |stream|)
    case Complete(_, next) => AllFitDeliverable(stream, next, capacity);
    case _ =>
  }

  /** An empty header can be such an obstacle: it is not released, and the next header finds no room. */
  lemma EmptyHeaderStalls()
    ensures var stream: seq<Word> := [0, 0, 0x1_0008, 0]; var v := Reach(stream, 0, 3, |stream|);
            Parse(stream, 0, v) == Parsed([], 2, NeedHeader) && |Parse(stream, 0, |stream|).msgs| == 1
  {
    hide HeadAt, Decode;
    var stream: seq<Word> := [0, 0, 0x1_0008, 0];
    StallingHeads(stream);
    assert Parse(stream, 0, 3) == Parse(stream, 2, 3);
    assert Parse(stream, 4, 4).msgs == [];
    assert Parse(stream, 0, 4) == Parse(stream, 2, 4);
  }

  lemma StallingHeads(stream: seq<Word>)
    requires stream == [0, 0, 0x1_0008, 0]
    ensures HeadAt(stream, 0, 3) == Empty(2) == HeadAt(stream, 0, 4)
    ensures HeadAt(stream, 2, 4) == Complete(Message(Header(8, 1, 0, 0), []), 4)
    ensures HeadAt(stream, 2, 3) == Incomplete(NeedHeader) == HeadAt(stream, 4, 4)
  {
    assert Decode(0, 0).len == 0;
    assert Decode(0x1_0008, 0) == Header(8, 1, 0, 0);
  }

  /** The parse up to `v` is `msgs` and then what follows from `start`. */
  predicate Continues(stream: seq<Word>, msgs: seq<Message>, start: nat, v: nat) {
    start <= v <= |stream| && Parse(stream, 0, v) == After(msgs, Parse(stream, start, v))
  }

  lemma ContinuesLater(stream: seq<Word>, msgs: seq<Message>, start: nat, v: nat, v': nat)
    requires Continues(stream, msgs, start, v) && v <= v' <= |stream|
    ensures Continues(stream, msgs, start, v')
  {
    ParseExtends(stream, 0, v, v');
    ParseExtends(stream, start, v, v');
    var q := Parse(stream, start, v);
    AfterAfter(msgs, q.msgs, Parse(stream, q.at, v'));
  }

  lemma ContinuesNext(stream: seq<Word>, msgs: seq<Message>, start: nat, v: nat)
    requires Continues(stream, msgs, start, v) && HeadAt(stream, start, v).Complete?
    ensures var h := HeadAt(stream, start, v); Continues(stream, msgs + [h.msg], h.next, v)
  {
    var h := HeadAt(stream, start, v);
    AfterAfter(msgs, [h.msg], Parse(stream, h.next, v));
  }

  lemma ContinuesEmpty(stream: seq<Word>, msgs: seq<Message>, start: nat, v: nat)
    requires Continues(stream, msgs, start, v) && HeadAt(stream, start, v).Empty?
    ensures Continues(stream, msgs, HeadAt(stream, start, v).next, v)
  {
  }

  lemma ContinuesToStop(stream: seq<Word>, msgs: seq<Message>, start: nat, v: nat)
    requires Continues(stream, msgs, start, v) && HeadAt(stream, start, v).Incomplete?
    ensures Parse(stream, 0, v) == Parsed(msgs, start, HeadAt(stream, start, v).stop)
  {
  }

  /**
   Where the positions come from: on a ring machine, `visible` is what the reader has seen,
   `rd` what it has read and `pushed` what it has released. The words it may still take are
   the difference of its two offsets, and the slave is at most a ring ahead of `pushed`.
   */
  lemma PositionsOnRing(s: Ring)
    requires Inv(s)
    ensures BufDiff(s.N, s.readerRd, s.readerWr) == s.history.seen - |s.history.read|
    ensures var t := Apply(s, ReaderPull);
            && s.history.seen <= t.history.seen == s.history.published <= |s.history.written|
            && t.history.seen <= s.history.released + (s.N - 1)
    ensures Apply(s, ReaderPush).history.released == |s.history.read|
  {
    Estimates(s);
  }

  /** There are only empty headers from `a` to `b`. */
  predicate OnlyEmpty(stream: seq<Word>, a: nat, b: nat)
    requires b <= |stream|
  {
    a == b || (a + HDR_WORDS <= b && Decode(stream[b - 2], stream[b - 1]).len == 0 && OnlyEmpty(stream, a, b - 2))
  }

  class Receiver {
    const stream: seq<Word>      // every word the slave will write, in order
    const capacity: nat          // of the ring, whose size is a 16-bit number of words
    var visible: nat             // words covered by the write offset last pulled
    var rd: nat                  // words read
    var pushed: nat              // words released by the read offset last pushed
    var rsp: Header              // the pending header; `len` 0 means none
    var dispatched: seq<Message>
    var arrivals: seq<nat>       // how far the slave has come at each pull; then it writes all it can

    constructor (stream: seq<Word>, capacity: nat, arrivals: seq<nat>)
      requires capacity < 0x1_0000
      ensures Valid() && dispatched == [] && visible == 0
      ensures this.stream == stream && this.capacity == capacity && this.arrivals == arrivals
    {
      this.stream, this.capacity, this.arrivals := stream, capacity, arrivals;
      visible, rd, pushed, rsp, dispatched := 0, 0, 0, Header(0, 0, 0, 0), [];
    }

    /** First word of the message at hand. */
    function Start(): nat
      reads this
    {
      if rsp.len > 0 && rd >= HDR_WORDS then rd - HDR_WORDS else rd
    }

    /** The parse of the visible words is what has been dispatched and then what follows. */
    predicate Agrees()
      reads this
    {
      && rd <= visible <= |stream|
      && (rsp.len > 0 ==> rd >= HDR_WORDS && rsp == Decode(stream[rd - 2], stream[rd - 1]))
      && Continues(stream, dispatched, Start(), visible)
    }

    /** The slave stays within its room; all is released but empty headers and the pending one. */
    predicate Bounded()
      reads this
    {
      capacity < 0x1_0000 && pushed <= Start() && visible <= pushed + capacity
    }

    predicate Valid()
      reads this
    {
      && Agrees() && Bounded() && OnlyEmpty(stream, pushed, Start())
      && (Deliverable(stream, 0, 0, capacity) <==> Deliverable(stream, pushed, Start(), capacity))
    }

    /** How far the next pull can see. */
    function NextReach(): nat
      reads this
    {
      Reach(stream, pushed, capacity, if arrivals == [] then |stream| else arrivals[0])
    }

    method PullWrPtr()
      requires Agrees() && Bounded()
      modifies this`visible, this`arrivals
      ensures Agrees() && Bounded() && visible >= old(visible) && visible >= old(NextReach())
      ensures arrivals == if old(arrivals) == [] then [] else old(arrivals)[1..]
    {
      hide Continues, Parse, Decode;
      var w := NextReach();
      if w > visible {
        ContinuesLater(stream, dispatched, Start(), visible, w);
        visible := w;
      }
      if arrivals != [] {
        arrivals := arrivals[1..];
      }
    }

    /** `mt7697q_read` of a header. */
    method ReadHeader()
      requires Agrees() && Bounded() && rsp.len == 0 && rd + HDR_WORDS <= visible
      modifies this`rsp, this`rd
      ensures Agrees() && rd == old(rd) + HDR_WORDS && rsp == Decode(stream[rd - 2], stream[rd - 1])
      ensures Start() == if rsp.len > 0 then old(Start()) else old(Start()) + HDR_WORDS
      ensures Deliverable(stream, pushed, old(Start()), capacity) <==> Deliverable(stream, pushed, Start(), capacity)
    {
      hide Decode, Continues, Parse, Deliverable;
      rsp := Decode(stream[rd], stream[rd + 1]);
      if rsp.len == 0 {
        DeliverableNext(stream, pushed, rd, visible, capacity);
        ContinuesEmpty(stream, dispatched, rd, visible);
      }
      rd := rd + HDR_WORDS;
    }

    /** Hands the message over; its callback reads exactly the body (nothing for the queue group). */
    method Dispatch()
      requires Agrees() && Bounded() && rsp.len > 0 && rd + BodyWords(rsp.len) <= visible
      requires rsp.grp == GRP_QUEUE ==> Supported(rsp.typ)
      modifies this`dispatched, this`rd, this`rsp
      ensures Agrees() && rsp.len == 0 && rd == old(rd + Taken(rsp))
      ensures dispatched == old(dispatched) + [Message(old(rsp), stream[old(rd)..rd])]
      ensures Deliverable(stream, pushed, old(Start()), capacity) <==> Deliverable(stream, rd, rd, capacity)
    {
      hide Continues, Parse, Decode, Deliverable;
      DeliverableNext(stream, pushed, Start(), visible, capacity);
      var n := Taken(rsp);
      var m := Message(rsp, stream[rd..rd + n]);
      ContinuesNext(stream, dispatched, Start(), visible);
      dispatched, rd, rsp := dispatched + [m], rd + n, rsp.(len := 0);
    }

    /** Where the parse of the visible words stands when no message can be taken. */
    lemma Stopped()
      requires Agrees()
      ensures var p := Parse(stream, 0, visible);
        && (rsp.len == 0 && visible - rd < HDR_WORDS ==> p == Parsed(dispatched, rd, NeedHeader))
        && (rsp.len > 0 && visible - rd < BodyWords(rsp.len) ==> p == Parsed(dispatched, Start(), NeedBody))
        && (rsp.len > 0 && visible - rd >= BodyWords(rsp.len) && rsp.grp == GRP_QUEUE && !Supported(rsp.typ) ==>
              p == Parsed(dispatched, Start(), Unsupported))
    {
      if HeadAt(stream, Start(), visible).Incomplete? {
        ContinuesToStop(stream, dispatched, Start(), visible);
      }
    }

    /** Reads the header unless one is pending; with `avail` words known to be there. */
    method NeedHeaderFirst(avail: nat) returns (left: nat)
      requires Valid() && avail <= visible - rd && (rsp.len == 0 ==> HDR_WORDS <= avail)
      modifies this`rsp, this`rd
      ensures Valid() && left <= visible - rd
      ensures old(rsp.len) > 0 ==> left == avail && rsp == old(rsp) && rd == old(rd)
      ensures old(rsp.len) == 0 ==> left == avail - HDR_WORDS && rd == old(rd) + HDR_WORDS
      ensures rsp.len > 0 ==> Start() == old(Start())
      ensures rsp.len == 0 ==> EndsEmpty() && Start() == old(Start()) + HDR_WORDS
    {
      hide Decode, Continues, Deliverable;
      left := avail;
      if rsp.len == 0 {
        ReadHeader();
        left := avail - HDR_WORDS;
      }
    }

    /** The header read last is an empty one. */
    predicate EndsEmpty()
      reads this
    {
      HDR_WORDS <= rd <= |stream| && rsp.len == 0 && Decode(stream[rd - 2], stream[rd - 1]).len == 0
    }

    /** Refreshes the count of visible words when it does not cover what is needed. */
    method Refresh(avail: nat, req: nat) returns (left: nat)
      requires Agrees() && Bounded() && avail <= visible - rd
      modifies this`visible, this`arrivals
      ensures Agrees() && Bounded() && visible >= old(visible) && |arrivals| <= old(|arrivals|)
      ensures avail >= req ==> left == avail && visible == old(visible)
      ensures left <= visible - rd && (left < req ==> left == visible - rd)
    {
      left := avail;
      if avail < req {
        PullWrPtr();
        left := visible - rd;
      }
    }

    /** The words the loop asks for: those of the body if a header is pending, else a header. */
    function Required(): nat
      reads this
      requires rsp.len < 0x1_0000
    {
      if rsp.len > 0 then BodyWords(rsp.len) else HDR_WORDS
    }

    /** How a call that has ended stands: at the end of the parse, or behind an empty header. */
    predicate Ended(ret: int, early: bool)
      reads this
      requires visible <= |stream|
    {
      if early then ret == 0 && EndsEmpty()
      else
        var p := Parse(stream, 0, visible);
        p.msgs == dispatched && p.at == Start() && ret == if p.stop == Unsupported then -EINVAL else 0
    }

    /** One round of the loop, with `avail` words known to be there. */
    method TakeMessage(avail: nat) returns (left: nat, ended: bool, ret: int, ghost early: bool)
      requires Valid() && Required() <= avail <= visible - rd
      modifies this
      ensures Valid() && visible >= old(visible) && |arrivals| <= old(|arrivals|)
      ensures ended ==> Ended(ret, early) && pushed == old(pushed)
      ensures if ended && !early then Start() == old(Start()) else Start() > old(Start())
      ensures !ended ==> rsp.len == 0 && left <= visible - rd && (left < HDR_WORDS ==> left == visible - rd)
    {
      hide Continues, Parse, Decode, BodyWords, Taken, Supported, OnlyEmpty, Reach, Deliverable;
      left := NeedHeaderFirst(avail);
      ended, ret, early := true, 0, rsp.len == 0;
      var req := BodyWords(rsp.len);
      left := Refresh(left, req);
      if left < req {
        Stopped();
        return;
      }
      EmptyTakesNone(left);
      if rsp.grp == GRP_QUEUE && !Supported(rsp.typ) {
        Stopped();
        ret := -EINVAL;
        return;
      }
      ended := false;
      Dispatch();
      left := Refresh(left - req, HDR_WORDS);
      pushed := rd;
      NoneBetween();
    }

    /**
     One call. Unless it is ended early by an empty header, what has been dispatched is the one-shot
     parse of what has become visible; and if so, it goes on from behind that header.
     */
    method ProcData() returns (ret: int, ghost early: bool)
      requires Valid()
      modifies this
      ensures Valid() && visible >= old(visible) && Start() >= old(Start())
      ensures Ended(ret, early) && (early ==> Start() > old(Start()))
      ensures pushed != old(pushed) ==> Start() > old(Start())
      // everything that had arrived by the first pull is covered
      ensures visible >= old(NextReach())
      ensures |arrivals| < old(|arrivals|) || arrivals == old(arrivals) == []
    {
      hide Continues, Parse, Decode, BodyWords, OnlyEmpty, Reach, Ended, EndsEmpty, Deliverable;
      PullWrPtr();
      ghost var first, begin, more := visible, Start(), |arrivals|;
      var avail := visible - rd;
      while avail >= Required()
        invariant Valid() && visible >= first && |arrivals| <= more
        invariant Start() >= begin && (pushed != old(pushed) ==> Start() > begin)
        invariant 0 <= avail <= visible - rd && (avail < Required() ==> avail == visible - rd)
        decreases |stream| - Start()
      {
        var left, ended, result;
        left, ended, result, early := TakeMessage(avail);
        if ended {
          return result, early;
        }
        avail := left;
      }
      NothingToTake();
      ret, early := 0, false;
    }

    lemma NothingToTake()
      requires Agrees() && visible - rd < Required()
      ensures Ended(0, false)
    {
      hide Continues, Parse, Decode, BodyWords;
      Stopped();
    }

    /** What an empty header seems to ask for is more than a ring can hold. */
    lemma EmptyTakesNone(avail: nat)
      requires Bounded() && avail <= visible - rd && rd <= visible && Start() <= rd
      ensures BodyWords(0) > avail
    {
    }

    lemma NoneBetween()
      requires Start() <= |stream|
      ensures OnlyEmpty(stream, Start(), Start())
    {
    }

    /**
     The calls that follow one another as long as words keep coming or messages are taken. In the end
     the messages dispatched are those of the whole stream, or the next one finds no room in the ring;
     which of the two can be told from the stream and the capacity.
     */
    method Interrupts()
      requires Valid()
      modifies this
      ensures Valid() && arrivals == [] && visible == Reach(stream, pushed, capacity, |stream|)
      ensures var p := Parse(stream, 0, visible);
        && p.msgs == dispatched && p.at == Start() && OnlyEmpty(stream, pushed, p.at)
        && (p == Parse(stream, 0, |stream|) ||
            (p.at + Needed(stream, p) <= |stream| && (p.at - pushed) + Needed(stream, p) > capacity))
      ensures dispatched == Parse(stream, 0, |stream|).msgs <==> Deliverable(stream, 0, 0, capacity)
    {
      hide Continues, Parse, Decode, BodyWords, OnlyEmpty, Needed, Deliverable;
      var idle := false;
      while !idle
        invariant Valid()
        invariant idle ==> arrivals == [] && visible == Reach(stream, pushed, capacity, |stream|)
        invariant idle ==> var p := Parse(stream, 0, visible); p.msgs == dispatched && p.at == Start()
        decreases |arrivals|, |stream| - Start(), !idle
      {
        var last, at := arrivals == [], Start();
        var ret, early := ProcData();
        idle := last && Start() == at;
      }
      WholeStream(stream, visible, pushed, capacity);
      Settled(stream, visible, pushed, capacity);
    }
  }
}
