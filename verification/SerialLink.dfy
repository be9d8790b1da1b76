/**
 * The pin link: a transmitter that sends a message in pin-wide chunks, top chunk first, and the
 * receiver that shifts them in. Parametric in the number of pins and the longest message.
 */
module SerialLink {
  type Bits = seq<bool>

  /** Chunks of a message, chunk 0 being its low bits. */
  type Chunks = seq<Bits>

  function CeilDiv(bits: nat, pins: nat): nat
    requires pins > 0
  {
    (bits + pins - 1) / pins
  }

  /** What lies above the low chunk. */
  function Rest(data: Bits, pins: nat): Bits {
    if |data| < pins then [] else data[pins..]
  }

  function Split(data: Bits, pins: nat, depth: nat): (c: Chunks)
    ensures |c| == depth
    decreases depth
  {
    if depth == 0 then [] else [Low(data, pins)] + Split(Rest(data, pins), pins, depth - 1)
  }

  /** Zero-extension of a vector to a given width. */
  function Pad(data: Bits, width: nat): (r: Bits)
    ensures |r| == if |data| < width then width else |data|
    ensures forall i | 0 <= i < |r| :: r[i] == if i < |data| then data[i] else false
  {
    if |data| < width then data + seq(width - |data|, i => false) else data
  }

  function Join(c: Chunks): Bits {
    if c == [] then [] else c[0] + Join(c[1..])
  }

  /** The low `width` bits of a vector, zero-extended if it is shorter. */
  function Low(data: Bits, width: nat): (r: Bits)
    ensures |r| == width
    ensures forall i | 0 <= i < width :: r[i] == if i < |data| then data[i] else false
  {
    Pad(data, width)[..width]
  }

  /** The bits of `len` chunks. */
  function Width(len: nat, pins: nat): nat {
    if len == 0 then 0 else pins + Width(len - 1, pins)
  }

  lemma {:induction false} WidthIsProduct(len: nat, pins: nat)
    ensures Width(len, pins) == len * pins
  {
    if len > 0 {
      WidthIsProduct(len - 1, pins);
      assert len * pins == pins + (len - 1) * pins;
    }
  }

  /** The low chunks joined again are the low bits. */
  lemma {:induction false} JoinSplit(data: Bits, pins: nat, depth: nat, len: nat)
    requires len <= depth
    ensures Join(Split(data, pins, depth)[..len]) == Low(data, Width(len, pins))
    decreases len
  {
    if len > 0 {
      var high := Split(Rest(data, pins), pins, depth - 1)[..len - 1];
      FirstOf(Low(data, pins), Split(Rest(data, pins), pins, depth - 1), len);
      JoinCons(Low(data, pins), high);
      JoinSplit(Rest(data, pins), pins, depth - 1, len - 1);
      LowSplit(data, pins, Width(len - 1, pins));
    }
  }

  lemma FirstOf(first: Bits, rest: Chunks, len: nat)
    requires 0 < len <= 1 + |rest|
    ensures ([first] + rest)[..len] == [first] + rest[..len - 1]
  {}

  lemma JoinCons(low: Bits, high: Chunks)
    ensures Join([low] + high) == low + Join(high)
  {}

  lemma LowSplit(data: Bits, pins: nat, n: nat)
    ensures Low(data, pins + n) == Low(data, pins) + Low(Rest(data, pins), n)
  {}

  lemma CeilCovers(bits: nat, pins: nat)
    requires pins > 0
    ensures bits <= CeilDiv(bits, pins) * pins < bits + pins
    ensures bits > 0 ==> CeilDiv(bits, pins) > 0
  {}

  lemma {:induction false} CeilMonotone(a: nat, b: nat, pins: nat)
    requires pins > 0 && a <= b
    ensures CeilDiv(a, pins) <= CeilDiv(b, pins)
  {
    CeilCovers(a, pins);
    CeilCovers(b, pins);
    if CeilDiv(a, pins) > CeilDiv(b, pins) {
      var x, y := CeilDiv(a, pins), CeilDiv(b, pins);
      MulMonotone(y + 1, x, pins);
    }
  }

  lemma MulMonotone(a: nat, b: nat, m: nat)
    requires a <= b
    ensures a * m <= b * m
    decreases b
  {}

  // ---- Transmitter ----

  /** `chunks` are the words to send now held in the shift register, and how many there are. */
  datatype Tx = Tx(sending: bool, msgLen: nat, count: nat, shift: Chunks)

  predicate TxOk(t: Tx, depth: nat) {
    && |t.shift| == depth
    && (t.sending ==> t.count < t.msgLen <= depth)
  }

  /** Element i takes element i - 1; element 0 stays. */
  function ShiftUp(shift: Chunks): Chunks
  {
    if shift == [] then [] else [shift[0]] + shift[..|shift| - 1]
  }

  function TxNext(t: Tx, valid: bool, chunks: Chunks, len: nat): Tx {
    if t.sending then
      Tx(t.count + 1 != t.msgLen, t.msgLen, t.count + 1, ShiftUp(t.shift))
    else
      Tx(valid, len, 0, chunks)
  }

  function Serial(t: Tx): Bits {
    if 0 < t.msgLen <= |t.shift| then t.shift[t.msgLen - 1] else []
  }

  // ---- Receiver ----

  datatype Rx = Rx(receiving: bool, valid: bool, shift: Chunks)

  function RxNext(r: Rx, req: bool, serial: Bits, ready: bool): Rx {
    Rx(req,
       if r.receiving && !req then true
       else if !r.receiving && req then false
       else if ready then false
       else r.valid,
       if req && r.shift != [] then [serial] + r.shift[..|r.shift| - 1] else r.shift)
  }

  // ---- The two ends joined, with the history of the link ----

  /** `sent` are the messages accepted, `received` the receiver's register each time it raised valid. */
  datatype Link = Link(tx: Tx, rx: Rx, sent: seq<Chunks>, received: seq<Chunks>)

  /** One cycle's input: a message offered, of `len` chunks. */
  datatype Offer = Offer(valid: bool, chunks: Chunks, len: nat)

  function LinkNext(l: Link, o: Offer): Link {
    Link(TxNext(l.tx, o.valid, o.chunks, o.len),
         RxNext(l.rx, l.tx.sending, Serial(l.tx), true),
         if !l.tx.sending && o.valid && o.len <= |o.chunks| then l.sent + [o.chunks[..o.len]] else l.sent,
         if l.rx.valid then l.received + [l.rx.shift] else l.received)
  }

  function LinkRun(l: Link, offers: seq<Offer>): Link
    decreases |offers|
  {
    if offers == [] then l else LinkRun(LinkNext(l, offers[0]), offers[1..])
  }

  /** A legal message: at least one chunk, and no more than either end's register holds. */
  predicate Legal(o: Offer, depth: nat, rxDepth: nat) {
    |o.chunks| == depth && 1 <= o.len <= depth && o.len <= rxDepth
  }

  /** Message k arrived intact. */
  predicate Arrived(l: Link, k: nat)
    requires k < |l.received| && k < |l.sent|
  {
    |l.sent[k]| <= |l.received[k]| && l.received[k][..|l.sent[k]|] == l.sent[k]
  }

  /** The receiver's register holds message k. */
  predicate Holds(l: Link, k: nat)
    requires k < |l.sent|
  {
    |l.sent[k]| <= |l.rx.shift| && l.rx.shift[..|l.sent[k]|] == l.sent[k]
  }

  /** The message being sent: what is left of it sits in the transmitter, what is gone in the receiver. */
  ghost predicate InFlight(l: Link, message: Chunks) {
    var c, n := l.tx.count, |message|;
    && c <= n == l.tx.msgLen && n <= |l.rx.shift| && n <= |l.tx.shift|
    && l.tx.shift[c..n] == message[..n - c]
    && l.rx.shift[..c] == message[n - c..]
    && l.rx.receiving == (c > 0)
    && (c > 0 ==> !l.rx.valid)
  }

  /** How many messages are on their way. */
  function Pending(l: Link): nat {
    (if l.tx.sending then 1 else 0) + (if l.rx.valid || (l.rx.receiving && !l.tx.sending) then 1 else 0)
  }

  ghost predicate InTransit(l: Link, depth: nat, rxDepth: nat) {
    && TxOk(l.tx, depth) && |l.rx.shift| == rxDepth
    && |l.sent| == |l.received| + Pending(l)
    && (l.tx.sending ==> InFlight(l, l.sent[|l.sent| - 1]))
    && (!l.tx.sending && l.rx.receiving ==> !l.rx.valid && Holds(l, |l.received|))
    && (l.rx.valid ==> Holds(l, |l.received|))
  }

  ghost predicate Delivered(l: Link) {
    |l.received| <= |l.sent| && forall k: nat | k < |l.received| :: Arrived(l, k)
  }

  ghost predicate LinkInv(l: Link, depth: nat, rxDepth: nat) {
    Delivered(l) && InTransit(l, depth, rxDepth)
  }

  function Reset(depth: nat, rxDepth: nat): Link {
    Link(Tx(false, 0, 0, seq(depth, i => [])), Rx(false, false, seq(rxDepth, i => [])), [], [])
  }

  lemma ResetInv(depth: nat, rxDepth: nat)
    ensures LinkInv(Reset(depth, rxDepth), depth, rxDepth)
  {}

  lemma TxShift(shift: Chunks, message: Chunks, c: nat)
    requires c < |message| <= |shift| && shift[c..|message|] == message[..|message| - c]
    ensures shift[|message| - 1] == message[|message| - c - 1]
    ensures ShiftUp(shift)[c + 1..|message|] == message[..|message| - c - 1]
  {
    var n := |message|;
    assert shift[n - 1] == shift[c..n][n - c - 1];
    forall k | 0 <= k < n - c - 1 ensures ShiftUp(shift)[c + 1..n][k] == message[k] {
      assert ShiftUp(shift)[c + 1 + k] == shift[c + k] == shift[c..n][k];
    }
  }

  lemma RxShift(shift: Chunks, message: Chunks, c: nat)
    requires c < |message| <= |shift| && shift[..c] == message[|message| - c..]
    ensures ([message[|message| - c - 1]] + shift[..|shift| - 1])[..c + 1] == message[|message| - c - 1..]
  {}

  /** One more chunk crosses, and it is not the last. */
  lemma ChunkCrosses(l: Link, o: Offer, message: Chunks)
    requires l.tx.sending && l.tx.count + 1 < l.tx.msgLen && InFlight(l, message)
    ensures LinkNext(l, o).tx.sending && InFlight(LinkNext(l, o), message)
  {
    TxShift(l.tx.shift, message, l.tx.count);
    RxShift(l.rx.shift, message, l.tx.count);
  }

  /** The last chunk crosses: the receiver holds the message. */
  lemma LastCrosses(l: Link, o: Offer, message: Chunks)
    requires l.tx.sending && l.tx.count + 1 == l.tx.msgLen && InFlight(l, message)
    ensures !LinkNext(l, o).tx.sending && LinkNext(l, o).rx.shift[..|message|] == message
  {
    TxShift(l.tx.shift, message, l.tx.count);
    RxShift(l.rx.shift, message, l.tx.count);
    assert message[0..] == message;
  }

  lemma DeliveredKept(l: Link, o: Offer)
    requires Delivered(l) && (l.rx.valid ==> |l.received| < |l.sent| && Holds(l, |l.received|))
    ensures Delivered(LinkNext(l, o))
  {
    var l' := LinkNext(l, o);
    forall k: nat | k < |l'.received| ensures Arrived(l', k) {
      assert l'.sent[k] == l.sent[k];
      if k < |l.received| {
        assert Arrived(l, k);
      }
    }
  }

  lemma SendingStep(l: Link, o: Offer, depth: nat, rxDepth: nat)
    requires InTransit(l, depth, rxDepth) && l.tx.sending
    ensures InTransit(LinkNext(l, o), depth, rxDepth)
  {
    if l.tx.count + 1 < l.tx.msgLen {
      ChunkCrosses(l, o, l.sent[|l.sent| - 1]);
    } else {
      LastCrosses(l, o, l.sent[|l.sent| - 1]);
    }
  }

  lemma IdleStep(l: Link, o: Offer, depth: nat, rxDepth: nat)
    requires InTransit(l, depth, rxDepth) && !l.tx.sending && Legal(o, depth, rxDepth)
    ensures InTransit(LinkNext(l, o), depth, rxDepth)
  {}

  lemma LinkStep(l: Link, o: Offer, depth: nat, rxDepth: nat)
    requires LinkInv(l, depth, rxDepth) && Legal(o, depth, rxDepth)
    ensures LinkInv(LinkNext(l, o), depth, rxDepth)
  {
    DeliveredKept(l, o);
    if l.tx.sending {
      SendingStep(l, o, depth, rxDepth);
    } else {
      IdleStep(l, o, depth, rxDepth);
    }
  }

  /**
   * For any number of pins and any stream of offers: the receiver raises valid once per message
   * sent, in order, and its low chunks are the message, whatever stale chunks lie above. At most
   * two messages are on their way.
   */
  lemma {:induction false} StreamRoundTrip(l: Link, offers: seq<Offer>, depth: nat, rxDepth: nat)
    requires LinkInv(l, depth, rxDepth)
    requires forall k | 0 <= k < |offers| :: Legal(offers[k], depth, rxDepth)
    ensures LinkInv(LinkRun(l, offers), depth, rxDepth)
    ensures var e := LinkRun(l, offers);
            && |e.received| <= |e.sent| <= |e.received| + 2
            && forall k: nat | k < |e.received| :: Arrived(e, k)
    decreases |offers|
  {
    if offers != [] {
      LinkStep(l, offers[0], depth, rxDepth);
      StreamRoundTrip(LinkNext(l, offers[0]), offers[1..], depth, rxDepth);
    }
  }

  /** Cycles until everything sent has been received, if nothing more is offered. */
  function Drain(l: Link): nat {
    if l.tx.sending then (if l.tx.msgLen > l.tx.count then l.tx.msgLen - l.tx.count else 0) + 2
    else if l.rx.receiving then 2
    else if l.rx.valid then 1
    else 0
  }

  /** With no further offers the link empties within the message length and two cycles, and nothing is lost. */
  lemma {:induction false} Drains(l: Link, offers: seq<Offer>, depth: nat, rxDepth: nat)
    requires LinkInv(l, depth, rxDepth) && |offers| >= Drain(l)
    requires forall k | 0 <= k < |offers| :: Legal(offers[k], depth, rxDepth) && !offers[k].valid
    ensures LinkInv(LinkRun(l, offers), depth, rxDepth)
    ensures LinkRun(l, offers).sent == l.sent && |LinkRun(l, offers).received| == |l.sent|
    decreases |offers|
  {
    if offers != [] {
      LinkStep(l, offers[0], depth, rxDepth);
      Drains(LinkNext(l, offers[0]), offers[1..], depth, rxDepth);
    }
  }

  // ---- What is on the pins, cycle by cycle ----

  lemma ShiftedUp(shift: Chunks)
    ensures |ShiftUp(shift)| == |shift|
    ensures forall k | 1 <= k < |shift| :: ShiftUp(shift)[k] == shift[k - 1]
  {}

  /** The transmitter left to itself for some edges. */
  function TxAlone(t: Tx, edges: nat): Tx {
    if edges == 0 then t else TxNext(TxAlone(t, edges - 1), false, [], 0)
  }

  /** After c cycles of a message: asking until the last, the top chunk gone first. */
  predicate Sent(t: Tx, chunks: Chunks, len: nat, c: nat) {
    && (t.sending <==> c < len) && t.msgLen == len && t.count == c && |t.shift| == |chunks|
    && (forall k | c <= k < |chunks| :: t.shift[k] == chunks[k - c])
  }

  lemma SentNext(t: Tx, chunks: Chunks, len: nat, c: nat)
    requires Sent(t, chunks, len, c) && c < len
    ensures Sent(TxNext(t, false, [], 0), chunks, len, c + 1)
  {
    ShiftedUp(t.shift);
  }

  /**
   * An idle transmitter takes the message offered, then asks for as many cycles as it has chunks and sends the top
   * one first.
   */
  lemma {:induction false} TopChunkFirst(t: Tx, chunks: Chunks, len: nat, c: nat)
    requires !t.sending && 1 <= len <= |chunks| && c <= len
    ensures var now := TxAlone(TxNext(t, true, chunks, len), c);
            && Sent(now, chunks, len, c) && (now.sending <==> c < len)
            && (c < len ==> Serial(now) == chunks[len - 1 - c])
    decreases c
  {
    if c > 0 {
      TopChunkFirst(t, chunks, len, c - 1);
      SentNext(TxAlone(TxNext(t, true, chunks, len), c - 1), chunks, len, c - 1);
    }
  }

  /** Valid rises as the request falls, falls as it rises, and otherwise stays until it is taken. */
  lemma ValidHeld(r: Rx, req: bool, serial: Bits, ready: bool)
    ensures var r' := RxNext(r, req, serial, ready);
            && (r.receiving && !req ==> r'.valid) && (!r.receiving && req ==> !r'.valid)
            && (r.receiving == req ==> (r'.valid <==> r.valid && !ready)) && (r'.receiving <==> req)
            && (!req ==> r'.shift == r.shift)
  {}

  /** The receiver fed these words, one a cycle, with the request up. */
  function RxFed(r: Rx, words: Chunks): Rx {
    if words == [] then r else RxNext(RxFed(r, words[..|words| - 1]), true, words[|words| - 1], true)
  }

  /** The receiver has what came last at the bottom, and says so for one cycle, once the request is down. */
  lemma {:induction false} LastWordLowest(r: Rx, words: Chunks, serial: Bits)
    requires 1 <= |words| <= |r.shift| && !r.receiving && !r.valid
    ensures var fed := RxFed(r, words); var end := RxNext(fed, false, serial, true);
            && !fed.valid && fed.receiving && |fed.shift| == |r.shift|
            && (forall k | 0 <= k < |words| :: fed.shift[k] == words[|words| - 1 - k])
            && end.valid && !end.receiving && end.shift == fed.shift
            && !RxNext(end, false, serial, true).valid && !RxNext(end, true, serial, true).valid
    decreases |words|
  {
    if |words| > 1 {
      LastWordLowest(r, words[..|words| - 1], serial);
    } else {
      assert words[..0] == [];
    }
  }
}
