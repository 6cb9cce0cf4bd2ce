/**
 CarrierLane (src/link/CarrierLane.cpp): the selective-repeat ARQ that carries a
 nested link's reliable frames over a best-effort circuit.

 `LaneState` is what a lane remembers and the functions on it say what each
 operation makes of it; class `CarrierLane` is the lane as the source writes it,
 fields updated in place by loops, each method proved against its function.
 */
module Lane {
  import opened Words
  import opened LaneCodec

  /** Selective bit i acks cumulative + 2 + i. */
  const SELECTIVE_BITS: nat := 64

  datatype LaneConfig = LaneConfig(
    window: nat, initialRtoMs: int, minRtoMs: int, maxRtoMs: int, maxAttempts: int, fastSkips: int)
  {
    /** Timeouts are not negative, and std::clamp is defined for these bounds only. */
    predicate Valid() {
      0 <= initialRtoMs && 0 <= minRtoMs <= maxRtoMs
    }
  }

  datatype Outstanding = Outstanding(
    seqNo: uint32, wire: Bytes, sentMs: int, nextResendMs: int, attempts: int, skips: int)

  /** The round-trip estimator (section 2 of RFC 6298). */
  datatype Rtt = Rtt(rtoMs: int, srttMs: int, rttvarMs: int, haveRtt: bool)

  datatype LaneState = LaneState(
    failed: bool, nextTx: uint32, outstanding: seq<Outstanding>, rtt: Rtt,
    rxCumulative: uint32, rxHold: map<uint32, Bytes>)

  function Fresh(cfg: LaneConfig): LaneState {
    LaneState(false, 1, [], Rtt(cfg.initialRtoMs, 0, 0, false), 0, map[])
  }

  // ------------------------------------------------------------ round trips

  /** SampleRtt; the quotients are of non-negative numbers, where C++ and Dafny agree. */
  function Sampled(r: Rtt, sampleMs: int, cfg: LaneConfig): Rtt
    requires cfg.Valid()
  {
    var sample := Max(sampleMs, 1);
    var srtt := if !r.haveRtt then sample else (7 * r.srttMs + sample) / 8;
    var rttvar :=
      if !r.haveRtt then sample / 2
      else (3 * r.rttvarMs + (if r.srttMs > sample then r.srttMs - sample else sample - r.srttMs)) / 4;
    Rtt(Clamp(srtt + 4 * rttvar, cfg.minRtoMs, cfg.maxRtoMs), srtt, rttvar, true)
  }

  /** BackoffRto: what `attempts - 1` doublings of the timeout give, capped. */
  function Backoff(rtoMs: int, attempts: int, maxRtoMs: int): int {
    Min(rtoMs * Pow2(if attempts <= 1 then 0 else attempts - 1), maxRtoMs)
  }

  // ------------------------------------------------------------ acks

  /** Whether `ack` settles `seqNo`, in the source's own 32-bit arithmetic. */
  predicate Acked(ack: LaneAck, seqNo: uint32) {
    || seqNo <= ack.cumulative
    || (var bit := Sub32(Sub32(seqNo, ack.cumulative), 2);
        seqNo >= Add32(ack.cumulative, 2) && bit < SELECTIVE_BITS && Bit(ack.selective, bit))
  }

  /** The highest seq `ack` names, of its first `bits` selective bits (32-bit arithmetic). */
  function HighestAcked(ack: LaneAck, bits: nat): uint32 {
    if bits == 0 then ack.cumulative
    else if Bit(ack.selective, bits - 1) then Add32(ack.cumulative, bits + 1)
    else HighestAcked(ack, bits - 1)
  }

  /** A frame an ack passed by: resent at once when enough acks have. */
  function PassedBy(o: Outstanding, highest: uint32, nowMs: int, fastSkips: int): Outstanding {
    if o.seqNo < highest then
      var skips := o.skips + 1;
      o.(skips := skips, nextResendMs := if skips == fastSkips then nowMs else o.nextResendMs)
    else o
  }

  /** The frames an ack leaves in flight, oldest first. */
  function Unacked(frames: seq<Outstanding>, ack: LaneAck, highest: uint32, nowMs: int, fastSkips: int)
    : seq<Outstanding>
  {
    if frames == [] then []
    else
      var kept := Unacked(frames[..|frames| - 1], ack, highest, nowMs, fastSkips);
      var o := frames[|frames| - 1];
      if Acked(ack, o.seqNo) then kept else kept + [PassedBy(o, highest, nowMs, fastSkips)]
  }

  /** The estimator after an ack: a sample from each frame acked on its first transmission (Karn). */
  function SampledAll(frames: seq<Outstanding>, ack: LaneAck, nowMs: int, r: Rtt, cfg: LaneConfig): Rtt
    requires cfg.Valid()
  {
    if frames == [] then r
    else
      var before := SampledAll(frames[..|frames| - 1], ack, nowMs, r, cfg);
      var o := frames[|frames| - 1];
      if Acked(ack, o.seqNo) && o.attempts == 1 then Sampled(before, nowMs - o.sentMs, cfg) else before
  }

  function AfterAck(s: LaneState, ack: LaneAck, nowMs: int, cfg: LaneConfig): LaneState
    requires cfg.Valid()
  {
    s.(outstanding := Unacked(s.outstanding, ack, HighestAcked(ack, SELECTIVE_BITS), nowMs, cfg.fastSkips),
       rtt := SampledAll(s.outstanding, ack, nowMs, s.rtt, cfg))
  }

  // ------------------------------------------------------------ sends

  function AfterWrap(s: LaneState, inner: Bytes, nowMs: int, cfg: LaneConfig): (LaneState, Option<Bytes>) {
    if |s.outstanding| >= cfg.window then (s, None)
    else
      var wire := EncodeLaneData(s.nextTx, inner);
      var frame := Outstanding(s.nextTx, wire, nowMs, nowMs + s.rtt.rtoMs, 1, 0);
      (s.(nextTx := Add32(s.nextTx, 1), outstanding := s.outstanding + [frame]), Some(wire))
  }

  predicate Due(o: Outstanding, nowMs: int) {
    nowMs >= o.nextResendMs
  }

  /** A frame after DueResends looked at it. */
  function Retried(o: Outstanding, nowMs: int, rtoMs: int, cfg: LaneConfig): Outstanding {
    if Due(o, nowMs) && o.attempts < cfg.maxAttempts then
      o.(attempts := o.attempts + 1, skips := 0,
         nextResendMs := nowMs + Backoff(rtoMs, o.attempts + 1, cfg.maxRtoMs))
    else o
  }

  function RetriedAll(frames: seq<Outstanding>, nowMs: int, rtoMs: int, cfg: LaneConfig): seq<Outstanding> {
    if frames == [] then []
    else
      RetriedAll(frames[..|frames| - 1], nowMs, rtoMs, cfg) + [Retried(frames[|frames| - 1], nowMs, rtoMs, cfg)]
  }

  /** The wires DueResends sends again, in order. */
  function DueWires(frames: seq<Outstanding>, nowMs: int, cfg: LaneConfig): seq<Bytes> {
    if frames == [] then []
    else
      var o := frames[|frames| - 1];
      DueWires(frames[..|frames| - 1], nowMs, cfg) +
      (if Due(o, nowMs) && o.attempts < cfg.maxAttempts then [o.wire] else [])
  }

  /** A due frame out of attempts fails the lane (and stays in flight). */
  predicate Exhausted(frames: seq<Outstanding>, nowMs: int, cfg: LaneConfig) {
    exists i :: 0 <= i < |frames| && Due(frames[i], nowMs) && frames[i].attempts >= cfg.maxAttempts
  }

  function AfterResends(s: LaneState, nowMs: int, cfg: LaneConfig): LaneState {
    s.(outstanding := RetriedAll(s.outstanding, nowMs, s.rtt.rtoMs, cfg),
       failed := s.failed || Exhausted(s.outstanding, nowMs, cfg))
  }

  // ------------------------------------------------------------ receive

  /** What leaves the hold in order, then the cumulative seq and the hold that stay. */
  function Drained(cumulative: uint32, hold: map<uint32, Bytes>): (seq<Bytes>, uint32, map<uint32, Bytes>)
    decreases hold.Keys
  {
    var next := Add32(cumulative, 1);
    if next !in hold then ([], cumulative, hold)
    else
      var (rest, c, h) := Drained(next, hold - {next});
      ([hold[next]] + rest, c, h)
  }

  predicate Takes(cumulative: uint32, hold: map<uint32, Bytes>, seqNo: uint32, window: nat) {
    seqNo > cumulative && seqNo !in hold && Sub32(seqNo, cumulative) <= window
  }

  function AfterData(s: LaneState, seqNo: uint32, inner: Bytes, cfg: LaneConfig): (LaneState, seq<Bytes>) {
    var hold := if Takes(s.rxCumulative, s.rxHold, seqNo, cfg.window) then s.rxHold[seqNo := inner] else s.rxHold;
    var (deliver, c, h) := Drained(s.rxCumulative, hold);
    (s.(rxCumulative := c, rxHold := h), deliver)
  }

  /** The selective word of its first `bits` bits: bit i iff cumulative + 2 + i is held. */
  function SelectiveOf(cumulative: uint32, keys: set<uint32>, bits: nat): (w: nat)
    ensures w < Pow2(bits)
  {
    if bits == 0 then 0
    else
      var w := SelectiveOf(cumulative, keys, bits - 1);
      if cumulative + 1 + bits in keys then
        SetBitInWord(w, bits - 1, bits);
        SetBit(w, bits - 1)
      else w
  }

  function AckFor(cumulative: uint32, hold: map<uint32, Bytes>): LaneAck {
    Pow2Of64();
    LaneAck(cumulative, SelectiveOf(cumulative, hold.Keys, SELECTIVE_BITS))
  }

  // ------------------------------------------------------------ what they mean

  lemma {:induction false} SelectiveMeans(cumulative: uint32, keys: set<uint32>, bits: nat, i: nat)
    ensures Bit(SelectiveOf(cumulative, keys, bits), i) <==> i < bits && cumulative + 2 + i in keys
  {
    if bits == 0 {
      NoBitsInZero(i);
    } else {
      SelectiveMeans(cumulative, keys, bits - 1, i);
      BitOfSetBit(SelectiveOf(cumulative, keys, bits - 1), bits - 1, i);
    }
  }

  /** An ack says exactly what the receiver has delivered and which of the next 64 it holds. */
  lemma AckForMeans(cumulative: uint32, hold: map<uint32, Bytes>, i: nat)
    ensures AckFor(cumulative, hold).cumulative == cumulative
    ensures Bit(AckFor(cumulative, hold).selective, i) <==> i < SELECTIVE_BITS && cumulative + 2 + i in hold
  {
    SelectiveMeans(cumulative, hold.Keys, SELECTIVE_BITS, i);
  }

  /** The 32-bit test of OnAck is the mathematical one for every ack and every seq: no wrap leaks in. */
  lemma AckedMeans(ack: LaneAck, seqNo: uint32)
    ensures Acked(ack, seqNo) <==>
            || seqNo <= ack.cumulative
            || (ack.cumulative + 2 <= seqNo < ack.cumulative + 66 && Bit(ack.selective, seqNo - ack.cumulative - 2))
  {
  }

  /** Nothing is skipped by a gap in the held keys. */
  lemma {:induction false} NoKeysBetween(cumulative: uint32, keys: set<uint32>, lo: nat, hi: nat)
    requires lo <= hi
    requires forall k :: k in keys ==> k < cumulative + 2 + lo || cumulative + 2 + hi <= k
    ensures SelectiveOf(cumulative, keys, hi) == SelectiveOf(cumulative, keys, lo)
    decreases hi
  {
    if lo < hi {
      NoKeysBetween(cumulative, keys, lo, hi - 1);
    }
  }

  // ------------------------------------------------------------ the lane itself

  class CarrierLane {
    const config: LaneConfig
    var peerSpeaksLane: bool
    var failed: bool
    var nextTxSeq: uint32
    var outstanding: seq<Outstanding>
    var rtoMs: int
    var srttMs: int
    var rttvarMs: int
    var haveRtt: bool
    var rxCumulative: uint32
    var rxHold: map<uint32, Bytes>

    ghost predicate Valid()
      reads this
    {
      && config.Valid() && 0 <= rtoMs
      && (forall k :: k in rxHold ==> k > rxCumulative + 1)
    }

    ghost function State(): LaneState
      reads this
    {
      LaneState(failed, nextTxSeq, outstanding, Rtt(rtoMs, srttMs, rttvarMs, haveRtt), rxCumulative, rxHold)
    }

    constructor (config: LaneConfig)
      requires config.Valid()
      ensures Valid() && State() == Fresh(config) && this.config == config && !peerSpeaksLane
    {
      this.config := config;
      peerSpeaksLane, failed, nextTxSeq, outstanding := false, false, 1, [];
      rtoMs, srttMs, rttvarMs, haveRtt := config.initialRtoMs, 0, 0, false;
      rxCumulative, rxHold := 0, map[];
    }

    method Wrap(inner: Bytes, nowMs: int) returns (wire: Option<Bytes>)
      requires Valid()
      modifies this
      ensures Valid()
      ensures (State(), wire) == AfterWrap(old(State()), inner, nowMs, config)
    {
      if |outstanding| >= config.window {
        return None;
      }
      var frame := Outstanding(nextTxSeq, EncodeLaneData(nextTxSeq, inner), nowMs, nowMs + rtoMs, 1, 0);
      nextTxSeq := Add32(nextTxSeq, 1);
      outstanding := outstanding + [frame];
      wire := Some(frame.wire);
    }

    method Credits() returns (n: nat)
      ensures n == Max(0, config.window - |outstanding|)
    {
      n := if |outstanding| >= config.window then 0 else config.window - |outstanding|;
    }

    method SampleRtt(sampleMs: int)
      requires Valid()
      modifies this`rtoMs, this`srttMs, this`rttvarMs, this`haveRtt
      ensures Rtt(rtoMs, srttMs, rttvarMs, haveRtt) ==
              Sampled(old(Rtt(rtoMs, srttMs, rttvarMs, haveRtt)), sampleMs, config)
    {
      var sample := Max(sampleMs, 1);
      if !haveRtt {
        srttMs, rttvarMs, haveRtt := sample, sample / 2, true;
      } else {
        var err := if srttMs > sample then srttMs - sample else sample - srttMs;
        rttvarMs := (3 * rttvarMs + err) / 4;
        srttMs := (7 * srttMs + sample) / 8;
      }
      rtoMs := Clamp(srttMs + 4 * rttvarMs, config.minRtoMs, config.maxRtoMs);
    }

    /** The highest seq an ack names, bit by bit. */
    static method HighestNamed(ack: LaneAck) returns (highest: uint32)
      ensures highest == HighestAcked(ack, SELECTIVE_BITS)
    {
      highest := ack.cumulative;
      for bit := 0 to SELECTIVE_BITS
        invariant highest == HighestAcked(ack, bit)
      {
        if Bit(ack.selective, bit) {
          highest := Add32(ack.cumulative, 2 + bit);
        }
      }
    }

    method OnAck(ack: LaneAck, nowMs: int)
      requires Valid()
      modifies this`outstanding, this`rtoMs, this`srttMs, this`rttvarMs, this`haveRtt
      ensures Valid()
      ensures State() == AfterAck(old(State()), ack, nowMs, config)
    {
      ghost var was := Rtt(rtoMs, srttMs, rttvarMs, haveRtt);
      var highestAcked := HighestNamed(ack);
      // `it` walks the deque: `kept` is what stays before it, `i` how many it has passed.
      var frames, kept: seq<Outstanding> := outstanding, [];
      var i := 0;
      while i < |frames|
        invariant 0 <= i <= |frames| && 0 <= rtoMs
        invariant kept == Unacked(frames[..i], ack, highestAcked, nowMs, config.fastSkips)
        invariant Rtt(rtoMs, srttMs, rttvarMs, haveRtt) == SampledAll(frames[..i], ack, nowMs, was, config)
      {
        var o := frames[i];
        assert frames[..i + 1][..i] == frames[..i];
        if Acked(ack, o.seqNo) {
          if o.attempts == 1 {
            SampleRtt(nowMs - o.sentMs);
          }
        } else {
          if o.seqNo < highestAcked {
            o := o.(skips := o.skips + 1);
            if o.skips == config.fastSkips {
              o := o.(nextResendMs := nowMs);
            }
          }
          kept := kept + [o];
        }
        i := i + 1;
      }
      assert frames[..i] == frames;
      outstanding := kept;
    }

    method BackoffRto(attempts: int) returns (r: int)
      requires Valid()
      ensures r == Backoff(rtoMs, attempts, config.maxRtoMs)
    {
      var rto := rtoMs;
      var i := 1;
      while i < attempts && rto < config.maxRtoMs
        invariant 1 <= i && (i <= attempts || i == 1)
        invariant rto == rtoMs * Pow2(i - 1)
      {
        assert rtoMs * (2 * Pow2(i - 1)) == 2 * (rtoMs * Pow2(i - 1));
        rto := rto * 2;
        i := i + 1;
      }
      if i < attempts {
        Pow2Sum(i - 1, attempts - i);
        Scaled(rtoMs, Pow2(i - 1), Pow2(attempts - i));
      }
      r := Min(rto, config.maxRtoMs);
    }

    method DueResends(nowMs: int) returns (out: seq<Bytes>)
      requires Valid()
      modifies this`failed, this`outstanding
      ensures Valid()
      ensures State() == AfterResends(old(State()), nowMs, config)
      ensures out == DueWires(old(outstanding), nowMs, config)
    {
      hide Backoff;
      // `looked` is the deque's front, already brought up to date; `i` how much of it that is.
      var frames, looked: seq<Outstanding> := outstanding, [];
      out := [];
      var i := 0;
      while i < |frames|
        invariant 0 <= i <= |frames|
        invariant looked == RetriedAll(frames[..i], nowMs, rtoMs, config)
        invariant out == DueWires(frames[..i], nowMs, config)
        invariant failed == (old(failed) || Exhausted(frames[..i], nowMs, config))
      {
        var frame := frames[i];
        ExhaustedStep(frames, i, nowMs, config);
        assert frames[..i + 1][..i] == frames[..i];
        if nowMs < frame.nextResendMs {
        } else if frame.attempts >= config.maxAttempts {
          failed := true;
        } else {
          var wait := BackoffRto(frame.attempts + 1);
          out := out + [frame.wire];
          frame := frame.(attempts := frame.attempts + 1, skips := 0, nextResendMs := nowMs + wait);
        }
        looked := looked + [frame];
        i := i + 1;
      }
      assert frames[..i] == frames;
      outstanding := looked;
    }

    method OnData(seqNo: uint32, inner: Bytes) returns (deliver: seq<Bytes>, ack: LaneAck)
      requires Valid()
      modifies this`rxCumulative, this`rxHold
      ensures Valid()
      ensures (State(), deliver) == AfterData(old(State()), seqNo, inner, config)
      ensures ack == AckFor(rxCumulative, rxHold)
    {
      if seqNo > rxCumulative && seqNo !in rxHold && Sub32(seqNo, rxCumulative) <= config.window {
        rxHold := rxHold[seqNo := inner];
      }
      deliver := ReleaseHeld();
      ack := CurrentAck();
    }

    /** OnData's loop: release the held frames that follow on from what was delivered. */
    method ReleaseHeld() returns (deliver: seq<Bytes>)
      requires forall k :: k in rxHold ==> k > rxCumulative
      modifies this`rxCumulative, this`rxHold
      ensures (deliver, rxCumulative, rxHold) == Drained(old(rxCumulative), old(rxHold))
      ensures forall k :: k in rxHold ==> k > rxCumulative + 1
    {
      ghost var goal := Drained(rxCumulative, rxHold);
      deliver := [];
      assert deliver + goal.0 == goal.0;
      while rxHold.Keys != {} && Least(rxHold.Keys) == Add32(rxCumulative, 1)
        invariant forall k :: k in rxHold ==> k > rxCumulative
        invariant goal.0 == deliver + Drained(rxCumulative, rxHold).0
        invariant goal.1 == Drained(rxCumulative, rxHold).1 && goal.2 == Drained(rxCumulative, rxHold).2
        decreases rxHold.Keys
      {
        var next := Least(rxHold.Keys);
        assert deliver + ([rxHold[next]] + Drained(next, rxHold - {next}).0)
            == (deliver + [rxHold[next]]) + Drained(next, rxHold - {next}).0;
        deliver := deliver + [rxHold[next]];
        rxCumulative := Add32(rxCumulative, 1);
        rxHold := rxHold - {next};
      }
      assert Add32(rxCumulative, 1) !in rxHold;
      assert deliver + [] == deliver;
    }

    method CurrentAck() returns (ack: LaneAck)
      requires Valid()
      ensures ack == AckFor(rxCumulative, rxHold)
    {
      Pow2Of64();
      var cumulative, keys := rxCumulative, rxHold.Keys;
      assert forall k :: k in keys ==> k > cumulative + 1;
      var selective: uint64 := 0;
      var rest := keys;
      ghost var done: nat := 0;
      while rest != {}
        invariant done <= SELECTIVE_BITS && Ahead(cumulative, keys, rest, done)
        invariant selective == SelectiveOf(cumulative, keys, done)
      {
        hide SelectiveOf;
        var seqNo := Least(rest);
        var bit := Sub32(Sub32(seqNo, cumulative), 2);
        if bit >= SELECTIVE_BITS {
          NothingNearer(cumulative, keys, rest, done);
          break;
        }
        NextSelectiveBit(cumulative, keys, rest, done, bit);
        selective := SetBit(selective, bit);
        done := bit + 1;
        rest := rest - {seqNo};
      }
      hide SelectiveOf;
      if rest == {} { AllLooked(cumulative, keys, rest, done); }
      assert selective == SelectiveOf(cumulative, keys, SELECTIVE_BITS);
      ack := LaneAck(cumulative, selective);
    }
  }

  /** `rest` is what the walk over `keys` has still to see, all of it past the first `done` bits. */
  ghost predicate Ahead(cumulative: uint32, keys: set<uint32>, rest: set<uint32>, done: nat) {
    && rest <= keys
    && (forall k :: k in keys && k !in rest ==> k < cumulative + 2 + done)
    && (forall k :: k in rest ==> k >= cumulative + 2 + done)
  }

  /** Past the last bit an ack has there is nothing more to set. */
  lemma NothingNearer(cumulative: uint32, keys: set<uint32>, rest: set<uint32>, done: nat)
    requires Ahead(cumulative, keys, rest, done) && rest != {} && done <= SELECTIVE_BITS
    requires Least(rest) >= cumulative + 2 + SELECTIVE_BITS
    ensures SelectiveOf(cumulative, keys, SELECTIVE_BITS) == SelectiveOf(cumulative, keys, done)
  {
    NoKeysBetween(cumulative, keys, done, SELECTIVE_BITS);
  }

  lemma AllLooked(cumulative: uint32, keys: set<uint32>, rest: set<uint32>, done: nat)
    requires Ahead(cumulative, keys, rest, done) && rest == {} && done <= SELECTIVE_BITS
    ensures SelectiveOf(cumulative, keys, SELECTIVE_BITS) == SelectiveOf(cumulative, keys, done)
  {
    NoKeysBetween(cumulative, keys, done, SELECTIVE_BITS);
  }

  lemma NextSelectiveBit(cumulative: uint32, keys: set<uint32>, rest: set<uint32>, done: nat, bit: nat)
    requires Ahead(cumulative, keys, rest, done) && rest != {} && done <= SELECTIVE_BITS && bit < SELECTIVE_BITS
    requires Least(rest) == cumulative + 2 + bit
    ensures SelectiveOf(cumulative, keys, bit + 1) == SetBit(SelectiveOf(cumulative, keys, done), bit) < U64
    ensures Ahead(cumulative, keys, rest - {Least(rest)}, bit + 1)
  {
    NoKeysBetween(cumulative, keys, done, bit);
    Pow2Sum(bit + 1, SELECTIVE_BITS - (bit + 1));
    Pow2Of64();
    Scaled(1, Pow2(bit + 1), Pow2(SELECTIVE_BITS - (bit + 1)));
  }

  lemma Scaled(x: int, a: nat, b: nat)
    requires 0 <= x && 1 <= b
    ensures x * a <= x * (a * b)
  {
    assert a <= a * b;
  }

  lemma ExhaustedStep(frames: seq<Outstanding>, i: nat, nowMs: int, cfg: LaneConfig)
    requires i < |frames|
    ensures Exhausted(frames[..i + 1], nowMs, cfg) <==>
            Exhausted(frames[..i], nowMs, cfg) || (Due(frames[i], nowMs) && frames[i].attempts >= cfg.maxAttempts)
  {
    var longer, shorter := frames[..i + 1], frames[..i];
    if Exhausted(shorter, nowMs, cfg) {
      var j :| 0 <= j < |shorter| && Due(shorter[j], nowMs) && shorter[j].attempts >= cfg.maxAttempts;
      assert longer[j] == shorter[j];
    }
    if Due(frames[i], nowMs) && frames[i].attempts >= cfg.maxAttempts {
      assert longer[i] == frames[i];
    }
  }
}
