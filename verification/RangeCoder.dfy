/** The LZMA range coder as arithmetic: a decision cuts an interval in two, and decoding finds
    the one sequence of decisions whose interval holds the number spelled by the stream. */
module RangeCoder {
  import opened Words

  const TOP: nat := 0x100_0000    // below this the range is widened
  const FULL: nat := 0xffff_ffff  // the range after a reset
  const HALF: nat := 1024         // the probability after a reset

  ghost predicate GoodProbs(probs: seq<nat>) { forall i :: 0 <= i < |probs| ==> 31 <= probs[i] <= 2017 }

  lemma Between(q: nat, p: nat)
    requires 31 <= p <= 2017
    ensures 31 * q <= q * p <= 2017 * q
  {
    assert q * (p - 31) >= 0;
    assert q * (2017 - p) >= 0;
  }

  /** The part of the range that stands for a zero bit. */
  function Bound(range: nat, prob: nat): (b: nat)
    requires 31 <= prob <= 2017
    ensures b <= range
    ensures range >= TOP ==> 0x1_0000 <= b <= range - 0x1_0000
  {
    Between(range / 2048, prob);
    range / 2048 * prob
  }

  /** Move a probability a 32nd of the way towards the bit that was seen. */
  function Adapt(prob: nat, bit: bool): (p: nat)
    requires 31 <= prob <= 2017
    ensures 31 <= p <= 2017
    ensures if bit then p <= prob else p >= prob
  {
    if bit then prob - prob / 32 else prob + (2048 - prob) / 32
  }

  /** The probability is the share of a zero: of 2048 equal steps of the range, up to truncation, prob stand
      for a zero. */
  lemma BoundIsShare(range: nat, prob: nat)
    requires 31 <= prob <= 2017
    ensures 2048 * Bound(range, prob) <= range * prob < 2048 * Bound(range, prob) + 2048 * prob
  {
    Shares(range / 2048, range % 2048, prob);
  }

  lemma Shares(q: nat, r: nat, p: nat)
    requires r < 2048 && p > 0
    ensures 2048 * (q * p) <= (2048 * q + r) * p < 2048 * (q * p) + 2048 * p
  {
    assert (2048 * q + r) * p == 2048 * (q * p) + r * p;
    assert (2047 - r) * p >= 0;
  }

  lemma BoundMono(range: nat, p: nat, p': nat)
    requires 31 <= p <= p' <= 2017
    ensures Bound(range, p) <= Bound(range, p')
  {
    var q := range / 2048;
    assert q * p' == q * p + q * (p' - p);
  }

  /** Seeing a bit never shrinks its own part, and never grows the other's. */
  lemma SeenBitGains(range: nat, prob: nat)
    requires 31 <= prob <= 2017
    ensures Bound(range, Adapt(prob, false)) >= Bound(range, prob) >= Bound(range, Adapt(prob, true))
  {
    BoundMono(range, prob, Adapt(prob, false));
    BoundMono(range, Adapt(prob, true), prob);
  }

  /** How far a probability moves: a 32nd of its distance from the end it moves to, truncated. */
  lemma AdaptMoves(prob: nat)
    requires 31 <= prob <= 2017
    ensures var d := Adapt(prob, false) - prob; 32 * d <= 2048 - prob < 32 * d + 32
    ensures var d := prob - Adapt(prob, true); 32 * d <= prob < 32 * d + 32
  {}

  // ----- the decoder

  datatype Coder = Coder(off: nat, range: nat, code: nat, probs: seq<nat>)

  ghost predicate Sound(c: Coder) { c.code < c.range < TWO32 && GoodProbs(c.probs) }

  /** Sound, and one more byte is enough to bring the range back to TOP. */
  ghost predicate Ready(c: Coder) { Sound(c) && c.range >= 0x1_0000 }

  predicate Starved(data: seq<byte>, c: Coder) { c.range < TOP && c.off >= |data| }

  function Normalized(data: seq<byte>, c: Coder): (r: Coder)
  {
    if c.range < TOP && c.off < |data|
    then Coder(c.off + 1, c.range * 256, c.code * 256 + data[c.off], c.probs)
    else c
  }

  /** Widening makes room for one byte: nothing wraps, and the code stays below the range. */
  lemma NormalizedSound(data: seq<byte>, c: Coder)
    requires Sound(c)
    ensures Sound(Normalized(data, c))
    ensures Ready(c) && !Starved(data, c) ==> Normalized(data, c).range >= TOP
  {}

  function BitOf(data: seq<byte>, c: Coder, k: nat): bool
    requires Sound(c) && k < |c.probs|
  {
    var n := Normalized(data, c);
    n.code >= Bound(n.range, n.probs[k])
  }

  function Next(data: seq<byte>, c: Coder, k: nat): (r: Coder)
    requires Sound(c) && k < |c.probs|
    ensures Sound(r) && |r.probs| == |c.probs|
    ensures Ready(c) && !Starved(data, c) ==> Ready(r)
  {
    NormalizedSound(data, c);
    var n := Normalized(data, c);
    var b := Bound(n.range, n.probs[k]);
    if n.code < b
    then n.(range := b, probs := n.probs[k := Adapt(n.probs[k], false)])
    else n.(range := n.range - b, code := n.code - b, probs := n.probs[k := Adapt(n.probs[k], true)])
  }

  // ----- whole runs: the context of a bit depends on the bits before it

  type Contexts = seq<bool> -> nat

  ghost predicate ContextsIn(ctx: Contexts, n: nat) { forall bits :: ctx(bits) < n }

  /** The bits read and the decoder after n of them. */
  ghost function Run(data: seq<byte>, c: Coder, ctx: Contexts, n: nat): (r: (seq<bool>, Coder))
    requires Sound(c) && ContextsIn(ctx, |c.probs|)
    ensures |r.0| == n && Sound(r.1) && |r.1.probs| == |c.probs|
  {
    if n == 0 then ([], c)
    else
      var (bits, d) := Run(data, c, ctx, n - 1);
      (bits + [BitOf(data, d, ctx(bits))], Next(data, d, ctx(bits)))
  }

  ghost predicate Fed(data: seq<byte>, c: Coder, ctx: Contexts, n: nat)
    requires Sound(c) && ContextsIn(ctx, |c.probs|)
  {
    forall i: nat :: i < n ==> !Starved(data, Run(data, c, ctx, i).1)
  }

  /** While there is input every run stays ready: the probabilities stay between 31 and 2017,
      the code below the range, and one byte restores the range. */
  lemma {:induction false} RunReady(data: seq<byte>, c: Coder, ctx: Contexts, n: nat)
    requires Ready(c) && ContextsIn(ctx, |c.probs|) && Fed(data, c, ctx, n)
    ensures Ready(Run(data, c, ctx, n).1)
  {
    if n > 0 {
      assert Fed(data, c, ctx, n - 1);
      RunReady(data, c, ctx, n - 1);
    }
  }

  /** In such a run every bit cuts the range into two non-empty parts. */
  lemma BothPartsRemain(data: seq<byte>, c: Coder, ctx: Contexts, n: nat, k: nat)
    requires Ready(c) && ContextsIn(ctx, |c.probs|) && Fed(data, c, ctx, n + 1) && k < |c.probs|
    ensures var d := Normalized(data, Run(data, c, ctx, n).1);
            |d.probs| == |c.probs| && GoodProbs(d.probs) && TOP <= d.range < TWO32 &&
              0 < Bound(d.range, d.probs[k]) < d.range
  {
    hide Next, BitOf;
    assert Fed(data, c, ctx, n);
    RunReady(data, c, ctx, n);
    NormalizedSound(data, Run(data, c, ctx, n).1);
  }

  // ----- the intervals an encoder would use

  /** The numbers from low, range of them, in a stream of so many more bytes. */
  datatype Interval = Interval(low: nat, range: nat, bytes: nat, probs: seq<nat>)

  ghost predicate Wide(iv: Interval) { 0x1_0000 <= iv.range < TWO32 && GoodProbs(iv.probs) }

  function Widened(iv: Interval): Interval
  {
    if iv.range < TOP then iv.(low := iv.low * 256, range := iv.range * 256, bytes := iv.bytes + 1) else iv
  }

  function Narrowed(iv: Interval, k: nat, bit: bool): (r: Interval)
    requires Wide(iv) && k < |iv.probs|
    ensures Wide(r) && |r.probs| == |iv.probs|
  {
    var w := Widened(iv);
    var b, p := Bound(w.range, w.probs[k]), w.probs[k := Adapt(w.probs[k], bit)];
    if bit then Interval(w.low + b, w.range - b, w.bytes, p) else Interval(w.low, b, w.bytes, p)
  }

  function Start(c: Coder): Interval { Interval(0, c.range, 0, c.probs) }

  ghost function Coded(start: Interval, ctx: Contexts, bits: seq<bool>): (r: Interval)
    requires Wide(start) && ContextsIn(ctx, |start.probs|)
    ensures Wide(r) && |r.probs| == |start.probs|
  {
    if |bits| == 0 then start
    else
      var rest := bits[..|bits| - 1];
      Narrowed(Coded(start, ctx, rest), ctx(rest), bits[|bits| - 1])
  }

  /** The number spelled by the code and the next m bytes. */
  function Value(data: seq<byte>, c: Coder, m: nat): nat
    requires c.off + m <= |data|
  {
    if m == 0 then c.code else Value(data, c, m - 1) * 256 + data[c.off + m - 1]
  }

  ghost predicate Holds(data: seq<byte>, c: Coder, iv: Interval)
  {
    c.off + iv.bytes <= |data| && iv.low <= Value(data, c, iv.bytes) < iv.low + iv.range
  }

  /** The decoder d stands in interval iv: it keeps the distance from its lower end. */
  ghost predicate Stands(data: seq<byte>, c: Coder, d: Coder, iv: Interval)
  {
    && Holds(data, c, iv)
    && d.off == c.off + iv.bytes && d.range == iv.range && d.probs == iv.probs
    && d.code == Value(data, c, iv.bytes) - iv.low
  }

  /** A widened interval holds the longer number exactly when the interval held the shorter. */
  lemma WidenedHolds(data: seq<byte>, c: Coder, iv: Interval)
    ensures Holds(data, c, Widened(iv)) ==> Holds(data, c, iv)
    ensures Holds(data, c, iv) && c.off + Widened(iv).bytes <= |data| ==> Holds(data, c, Widened(iv))
  {}

  lemma WidenedStands(data: seq<byte>, c: Coder, d: Coder, iv: Interval)
    requires Stands(data, c, d, iv) && Wide(iv) && c.off + Widened(iv).bytes <= |data|
    ensures Stands(data, c, Normalized(data, d), Widened(iv))
  {
    WidenedHolds(data, c, iv);
  }

  /** The next bit is the half of the interval that holds the number. */
  lemma NarrowedStands(data: seq<byte>, c: Coder, d: Coder, iv: Interval, k: nat, bit: bool)
    requires Sound(d) && Stands(data, c, d, iv) && Wide(iv) && k < |iv.probs| && c.off + Widened(iv).bytes <= |data|
    ensures Holds(data, c, Narrowed(iv, k, bit)) <==> BitOf(data, d, k) == bit
    ensures BitOf(data, d, k) == bit ==> Stands(data, c, Next(data, d, k), Narrowed(iv, k, bit))
  {
    hide Value, Bound, Adapt;
    WidenedStands(data, c, d, iv);
    NormalizedSound(data, d);
    hide Normalized, Widened;
  }

  lemma NarrowedInside(data: seq<byte>, c: Coder, iv: Interval, k: nat, bit: bool)
    requires Wide(iv) && k < |iv.probs| && Holds(data, c, Narrowed(iv, k, bit))
    ensures Holds(data, c, iv)
  {
    hide Value, Adapt;
    assert Holds(data, c, Widened(iv));
    WidenedHolds(data, c, iv);
  }

  /** Decoding inverts encoding: a stream decodes to exactly those bits whose interval holds its
      number. Any encoder that leaves a number of the final interval is understood. */
  lemma {:induction false} DecodesIff(data: seq<byte>, c: Coder, ctx: Contexts, bits: seq<bool>)
    requires Ready(c) && ContextsIn(ctx, |c.probs|)
    ensures Holds(data, c, Coded(Start(c), ctx, bits)) <==>
            c.off + Coded(Start(c), ctx, bits).bytes <= |data| && Run(data, c, ctx, |bits|).0 == bits
    ensures Holds(data, c, Coded(Start(c), ctx, bits)) ==>
            Stands(data, c, Run(data, c, ctx, |bits|).1, Coded(Start(c), ctx, bits))
  {
    hide Next, BitOf, Bound, Adapt, Holds, Stands, Value;
    if |bits| == 0 {
      NothingCoded(data, c);
    } else {
      var rest, bit := bits[..|bits| - 1], bits[|bits| - 1];
      DecodesIff(data, c, ctx, rest);
      LastBit(data, c, ctx, rest, bit);
      assert rest + [bit] == bits;
    }
  }

  lemma NothingCoded(data: seq<byte>, c: Coder)
    requires Ready(c)
    ensures Holds(data, c, Start(c)) <==> c.off <= |data|
    ensures c.off <= |data| ==> Stands(data, c, c, Start(c))
  {}

  lemma LastBit(data: seq<byte>, c: Coder, ctx: Contexts, rest: seq<bool>, bit: bool)
    requires Ready(c) && ContextsIn(ctx, |c.probs|)
    requires Holds(data, c, Coded(Start(c), ctx, rest)) <==>
             c.off + Coded(Start(c), ctx, rest).bytes <= |data| && Run(data, c, ctx, |rest|).0 == rest
    requires Holds(data, c, Coded(Start(c), ctx, rest)) ==>
             Stands(data, c, Run(data, c, ctx, |rest|).1, Coded(Start(c), ctx, rest))
    ensures var iv := Narrowed(Coded(Start(c), ctx, rest), ctx(rest), bit);
            var (bits, d) := Run(data, c, ctx, |rest|);
            && (Holds(data, c, iv) <==> c.off + iv.bytes <= |data| && bits == rest && BitOf(data, d, ctx(rest)) == bit)
            && (Holds(data, c, iv) ==> Stands(data, c, Next(data, d, ctx(rest)), iv))
  {
    hide Next, BitOf, Bound, Adapt, Value, Run, Coded;
    var iv := Coded(Start(c), ctx, rest);
    var d := Run(data, c, ctx, |rest|).1;
    if Holds(data, c, Narrowed(iv, ctx(rest), bit)) { NarrowedInside(data, c, iv, ctx(rest), bit); }
    if Holds(data, c, iv) && c.off + Widened(iv).bytes <= |data| {
      NarrowedStands(data, c, d, iv, ctx(rest), bit);
    }
  }

  /** No number lies in the intervals of two different messages of the same length. */
  lemma MessagesApart(data: seq<byte>, c: Coder, ctx: Contexts, a: seq<bool>, b: seq<bool>)
    requires Ready(c) && ContextsIn(ctx, |c.probs|) && |a| == |b|
    requires Holds(data, c, Coded(Start(c), ctx, a)) && Holds(data, c, Coded(Start(c), ctx, b))
    ensures a == b
  {
    DecodesIff(data, c, ctx, a);
    DecodesIff(data, c, ctx, b);
  }

  // ----- an encoder

  /** The number v without its last m bytes, and those bytes. */
  function Head(v: nat, m: nat): nat { if m == 0 then v else Head(v / 256, m - 1) }

  function Digits(v: nat, m: nat): (r: seq<byte>)
    ensures |r| == m
  {
    if m == 0 then [] else Digits(v / 256, m - 1) + [v % 256]
  }

  lemma {:induction false} ValuePrefix(data: seq<byte>, more: seq<byte>, c: Coder, m: nat)
    requires c.off + m <= |data|
    ensures Value(data + more, c, m) == Value(data, c, m)
  {
    if m > 0 { ValuePrefix(data, more, c, m - 1); }
  }

  lemma {:induction false} DigitsSpell(v: nat, m: nat, c: Coder)
    requires c.off == 0 && c.code == Head(v, m)
    ensures Value(Digits(v, m), c, m) == v
  {
    if m > 0 {
      DigitsSpell(v / 256, m - 1, c);
      ValuePrefix(Digits(v / 256, m - 1), [v % 256], c, m - 1);
    }
  }

  /** Every number of a coded interval starts inside the first one. */
  lemma {:induction false} HeadInside(start: Interval, ctx: Contexts, bits: seq<bool>, v: nat)
    requires Wide(start) && ContextsIn(ctx, |start.probs|) && start.low == 0 && start.bytes == 0
    requires var iv := Coded(start, ctx, bits); iv.low <= v < iv.low + iv.range
    ensures Head(v, Coded(start, ctx, bits).bytes) < start.range
  {
    hide Bound, Adapt;
    if |bits| > 0 {
      var rest := bits[..|bits| - 1];
      HeadInside(start, ctx, rest, if Coded(start, ctx, rest).range < TOP then v / 256 else v);
    }
  }

  /** Round trip: encode any message, from any range and probabilities, by writing out any number v
      of its interval, and the decoder reads the message back. Its code is then the distance of v
      from the lower end. */
  lemma RoundTrip(range: nat, probs: seq<nat>, ctx: Contexts, bits: seq<bool>, v: nat)
    requires 0x1_0000 <= range < TWO32 && GoodProbs(probs) && ContextsIn(ctx, |probs|)
    requires var iv := Coded(Interval(0, range, 0, probs), ctx, bits); iv.low <= v < iv.low + iv.range
    ensures var iv := Coded(Interval(0, range, 0, probs), ctx, bits);
            var c := Coder(0, range, Head(v, iv.bytes), probs);
            && Ready(c) && Run(Digits(v, iv.bytes), c, ctx, |bits|).0 == bits
            && Run(Digits(v, iv.bytes), c, ctx, |bits|).1.range == iv.range
            && Run(Digits(v, iv.bytes), c, ctx, |bits|).1.code == v - iv.low
  {
    hide Run, Coded, Head, GoodProbs, ContextsIn, Digits, Value;
    var start := Interval(0, range, 0, probs);
    var iv := Coded(start, ctx, bits);
    HeadInside(start, ctx, bits, v);
    var c := Coder(0, range, Head(v, iv.bytes), probs);
    DigitsSpell(v, iv.bytes, c);
    DecodesIff(Digits(v, iv.bytes), c, ctx, bits);
  }

  // ----- the chunks of a stream

  /** A chunk: where its range code stands, whether it resets the probabilities, and n bits read with
      contexts of its own. The range is reset at every chunk. */
  datatype Chunk = Chunk(start: nat, reset: bool, ctx: Contexts, n: nat)

  /** The decoder at the head of a chunk. */
  ghost function ChunkStart(data: seq<byte>, probs: seq<nat>, k: Chunk): Coder
    requires k.start + 5 <= |data|
  {
    Coder(k.start + 5, FULL, Value(data, Coder(k.start + 1, FULL, 0, []), 4),
          if k.reset then seq(|probs|, _ => HALF) else probs)
  }

  /** The chunk's range code is there and is not all ones, and the input lasts for its bits. */
  ghost predicate ChunkOk(data: seq<byte>, probs: seq<nat>, k: Chunk)
  {
    && GoodProbs(probs) && ContextsIn(k.ctx, |probs|) && k.start + 5 <= |data|
    && ChunkStart(data, probs, k).code < FULL && Fed(data, ChunkStart(data, probs, k), k.ctx, k.n)
  }

  /** The probabilities after a chunk. */
  ghost function ChunkProbs(data: seq<byte>, probs: seq<nat>, k: Chunk): (r: seq<nat>)
    requires ChunkOk(data, probs, k)
    ensures GoodProbs(r) && |r| == |probs|
  {
    Run(data, ChunkStart(data, probs, k), k.ctx, k.n).1.probs
  }

  ghost predicate ChunksOk(data: seq<byte>, probs: seq<nat>, ks: seq<Chunk>)
    decreases |ks|
  {
    |ks| > 0 ==> ChunkOk(data, probs, ks[0]) && ChunksOk(data, ChunkProbs(data, probs, ks[0]), ks[1..])
  }

  /** The probabilities with which chunk i starts. */
  ghost function ProbsAt(data: seq<byte>, probs: seq<nat>, ks: seq<Chunk>, i: nat): (r: seq<nat>)
    requires ChunksOk(data, probs, ks) && i < |ks|
    ensures ChunkOk(data, r, ks[i])
    decreases |ks|
  {
    if i == 0 then probs else ProbsAt(data, ChunkProbs(data, probs, ks[0]), ks[1..], i - 1)
  }

  /** Through a whole stream of chunks, with the probabilities carried on from one to the next, the
      decoder stays ready at every bit of every chunk. */
  lemma ChunksReady(data: seq<byte>, probs: seq<nat>, ks: seq<Chunk>, i: nat, n: nat)
    requires ChunksOk(data, probs, ks) && i < |ks| && n <= ks[i].n
    ensures var p := ProbsAt(data, probs, ks, i);
            Ready(Run(data, ChunkStart(data, p, ks[i]), ks[i].ctx, n).1)
  {
    hide Run, ChunksOk, ProbsAt;
    var c := ChunkStart(data, ProbsAt(data, probs, ks, i), ks[i]);
    assert Fed(data, c, ks[i].ctx, n);
    RunReady(data, c, ks[i].ctx, n);
  }
}
