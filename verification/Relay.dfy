/** The bidirectional relay with its byte counter and idle checker (src/util/relay.go), and the bandwidth
    sampler that shares the counter (src/edge/bandwidth.go). */
module Relay {
  import opened Common
  import opened ByteStreams

  const RELAY_BUFFER := 32 * 1024
  const WINDOW_SAMPLES := 60

  // ---------- The bandwidth sampler ----------

  class BandwidthTracker {
    var bytesAccum: nat
    var window: seq<nat>
    ghost var samples: seq<nat>

    ghost predicate Valid()
      reads this
    {
      window == LastOf(samples, 60)
    }

    constructor ()
      ensures Valid() && bytesAccum == 0 && samples == []
    {
      bytesAccum, window, samples := 0, [], [];
    }

    /** The relay adds the bytes of one completed write. */
    method Add(n: nat)
      requires Valid()
      modifies `bytesAccum
      ensures Valid() && bytesAccum == old(bytesAccum) + n
    {
      bytesAccum := bytesAccum + n;
    }

    /** Swaps the accumulator to zero and keeps the last 60 samples. */
    method Tick()
      requires Valid()
      modifies this
      ensures Valid() && bytesAccum == 0 && samples == old(samples) + [old(bytesAccum)]
    {
      var snapshot := bytesAccum;
      bytesAccum := 0;
      window := window + [snapshot];
      if |window| > WINDOW_SAMPLES {
        window := window[|window| - WINDOW_SAMPLES..];
      }
      samples := samples + [snapshot];
    }

    method CurrentBps() returns (r: nat)
      requires Valid()
      ensures r == if samples == [] then 0 else samples[|samples| - 1]
    {
      r := if |window| == 0 then 0 else window[|window| - 1];
    }
  }

  /** One copy loop on its own: the destination gets a prefix of the source, all of it unless a write fails,
      and the counter grows by the bytes of the completed writes, which are all but those of a failed one. */
  method CopyLoop(src: Conn, dst: Conn, counter: BandwidthTracker) returns (completed: nat, failed: bool)
    requires src != dst && counter.Valid()
    modifies src`chunks, dst`sent, counter`bytesAccum
    ensures counter.Valid() && counter.bytesAccum == old(counter.bytesAccum) + completed
    ensures completed <= |old(src.Incoming())|
    ensures !failed ==> dst.sent == old(dst.sent) + old(src.Incoming()) && completed == |old(src.Incoming())|
    ensures failed ==> old(dst.sent) + old(src.Incoming())[..completed] <= dst.sent <= old(dst.sent) + old(src.Incoming())
  {
    ghost var all, done := src.Incoming(), [];
    completed, failed := 0, false;
    while true
      invariant done + src.Incoming() == all && |done| == completed
      invariant dst.sent == old(dst.sent) + done
      invariant counter.Valid() && counter.bytesAccum == old(counter.bytesAccum) + completed
      decreases |src.chunks| + |src.Incoming()|
    {
      var buf, eof := src.Read(RELAY_BUFFER);
      if eof {
        assert done == all;
        return;
      }
      if |buf| > 0 {
        var n, ok := dst.Write(buf);
        PartialWrite(old(dst.sent), done, buf, src.Incoming(), n);
        if !ok {
          failed := true;
          return;
        }
        counter.Add(|buf|);
        completed := completed + |buf|;
        done := done + buf;
      } else {
        assert done + (buf + src.Incoming()) == done + src.Incoming();
      }
    }
  }

  /** What a destination holds after the first n bytes of a buffer. */
  lemma PartialWrite(before: seq<Byte>, done: seq<Byte>, buf: seq<Byte>, rest: seq<Byte>, n: nat)
    requires n <= |buf|
    ensures var all := done + (buf + rest); var now := before + done + buf[..n];
            && (done + buf) + rest == all && all[..|done|] == done
            && before + done <= now <= before + all
            && (n == |buf| ==> now == before + (done + buf))
  {
    assert before + (done + (buf + rest)) == (before + done + buf[..n]) + (buf[n..] + rest);
  }

  // ---------- Two copy loops and the sampler, interleaved ----------

  /** Where a copy loop stands: about to read, holding n bytes it has read, having written n bytes it has not
      counted yet, or ended. */
  datatype Phase = Idle | Holding(n: nat) | Counting(n: nat) | Ended

  /** One direction: all bytes its source will ever deliver, how many were read, what the destination got, and
      how many bytes its completed writes carried. */
  datatype Direction = Direction(source: seq<Byte>, taken: nat, delivered: seq<Byte>, completed: nat, phase: Phase)

  datatype Way = Up | Down

  datatype State = State(up: Direction, down: Direction, accum: nat, samples: seq<nat>) {
    function At(w: Way): Direction {
      if w.Up? then up else down
    }

    function With(w: Way, d: Direction): State {
      if w.Up? then this.(up := d) else this.(down := d)
    }
  }

  function Init(upSource: seq<Byte>, downSource: seq<Byte>): State {
    State(Direction(upSource, 0, [], 0, Idle), Direction(downSource, 0, [], 0, Idle), 0, [])
  }

  datatype Step =
    | Read(way: Way, n: nat)
    | ReadFails(way: Way)
    | WriteDone(way: Way)
    | WriteFails(way: Way, k: nat)    // after k bytes
    | Count(way: Way)
    | Sample

  predicate Enabled(s: State, e: Step) {
    match e
    case Read(w, n) => s.At(w).phase.Idle? && 0 < n <= RELAY_BUFFER && s.At(w).taken + n <= |s.At(w).source|
    case ReadFails(w) => s.At(w).phase.Idle?
    case WriteDone(w) => s.At(w).phase.Holding? && s.At(w).phase.n <= s.At(w).taken <= |s.At(w).source|
    case WriteFails(w, k) => s.At(w).phase.Holding? && k <= s.At(w).phase.n <= s.At(w).taken <= |s.At(w).source|
    case Count(w) => s.At(w).phase.Counting?
    case Sample => true
  }

  /** The buffer the loop holds: the last n bytes it read. */
  function Buffer(d: Direction): seq<Byte>
    requires d.phase.Holding? && d.phase.n <= d.taken <= |d.source|
  {
    d.source[d.taken - d.phase.n..d.taken]
  }

  function AfterWrite(d: Direction): Direction
    requires d.phase.Holding? && d.phase.n <= d.taken <= |d.source|
  {
    d.(delivered := d.delivered + Buffer(d), completed := d.completed + d.phase.n, phase := Counting(d.phase.n))
  }

  function AfterFailedWrite(d: Direction, k: nat): Direction
    requires d.phase.Holding? && k <= d.phase.n <= d.taken <= |d.source|
  {
    d.(delivered := d.delivered + Buffer(d)[..k], phase := Ended)
  }

  function Next(s: State, e: Step): State
    requires Enabled(s, e)
  {
    match e
    case Read(w, n) => s.With(w, s.At(w).(taken := s.At(w).taken + n, phase := Holding(n)))
    case ReadFails(w) => s.With(w, s.At(w).(phase := Ended))
    case WriteDone(w) => s.With(w, AfterWrite(s.At(w)))
    case WriteFails(w, k) => s.With(w, AfterFailedWrite(s.At(w), k))
    case Count(w) => s.With(w, s.At(w).(phase := Idle)).(accum := s.accum + s.At(w).phase.n)
    case Sample => s.(accum := 0, samples := s.samples + [s.accum])
  }

  ghost predicate Reaches(from: State, steps: seq<Step>, s: State)
    decreases |steps|
  {
    if steps == [] then s == from
    else Enabled(from, steps[0]) && Reaches(Next(from, steps[0]), steps[1..], s)
  }

  function Sum(ns: seq<nat>): nat {
    if ns == [] then 0 else Sum(ns[..|ns| - 1]) + ns[|ns| - 1]
  }

  /** Bytes written but not yet added to the counter. */
  function Uncounted(d: Direction): nat {
    if d.phase.Counting? then d.phase.n else 0
  }

  ghost predicate DirectionInv(d: Direction) {
    && d.delivered <= d.source && d.completed <= |d.delivered| <= d.taken <= |d.source|
    && (d.phase.Idle? || d.phase.Counting? ==> d.completed == |d.delivered| == d.taken)
    && (d.phase.Holding? ==> d.completed == |d.delivered| && d.taken == |d.delivered| + d.phase.n)
    && (d.phase.Counting? ==> d.phase.n <= d.completed)
  }

  ghost predicate Inv(s: State) {
    && DirectionInv(s.up) && DirectionInv(s.down)
    && s.accum + Sum(s.samples) + Uncounted(s.up) + Uncounted(s.down) == s.up.completed + s.down.completed
  }

  lemma WriteKeepsInv(s: State, w: Way)
    requires Inv(s) && Enabled(s, WriteDone(w))
    ensures Inv(Next(s, WriteDone(w)))
  {
  }

  lemma FailedWriteKeepsInv(s: State, w: Way, k: nat)
    requires Inv(s) && Enabled(s, WriteFails(w, k))
    ensures Inv(Next(s, WriteFails(w, k)))
  {
  }

  lemma CountKeepsInv(s: State, w: Way)
    requires Inv(s) && Enabled(s, Count(w))
    ensures Inv(Next(s, Count(w)))
  {
  }

  lemma SampleKeepsInv(s: State)
    requires Inv(s)
    ensures Inv(Next(s, Sample))
  {
    assert (s.samples + [s.accum])[..|s.samples|] == s.samples;
  }

  lemma StepKeepsInv(s: State, e: Step)
    requires Inv(s) && Enabled(s, e)
    ensures Inv(Next(s, e))
  {
    match e {
      case WriteDone(w) => WriteKeepsInv(s, w);
      case WriteFails(w, k) => FailedWriteKeepsInv(s, w, k);
      case Count(w) => CountKeepsInv(s, w);
      case Sample => SampleKeepsInv(s);
      case _ =>
    }
  }

  lemma {:induction false} RunKeepsInv(from: State, steps: seq<Step>, s: State)
    requires Inv(from) && Reaches(from, steps, s)
    ensures Inv(s)
    decreases |steps|
  {
    if steps != [] {
      StepKeepsInv(from, steps[0]);
      RunKeepsInv(Next(from, steps[0]), steps[1..], s);
    }
  }

  lemma {:induction false} SourcesAreFixed(from: State, steps: seq<Step>, s: State)
    requires Reaches(from, steps, s)
    ensures s.up.source == from.up.source && s.down.source == from.down.source
    decreases |steps|
  {
    if steps != [] {
      SourcesAreFixed(Next(from, steps[0]), steps[1..], s);
    }
  }

  /** Relay conservation, over every interleaving of the two loops and the sampler: each destination has
      received a prefix of its source, and the samples taken plus the accumulator are the bytes of all
      completed writes, up to the writes whose count is still to come. */
  lemma BytesAreConserved(upSource: seq<Byte>, downSource: seq<Byte>, steps: seq<Step>, s: State)
    requires Reaches(Init(upSource, downSource), steps, s)
    ensures s.up.delivered <= upSource && s.down.delivered <= downSource
    ensures Sum(s.samples) + s.accum + Uncounted(s.up) + Uncounted(s.down) == s.up.completed + s.down.completed
    ensures s.up.phase.Ended? && s.down.phase.Ended? ==> Sum(s.samples) + s.accum == s.up.completed + s.down.completed
    ensures !s.up.phase.Ended? ==> s.up.completed == |s.up.delivered|
    ensures !s.down.phase.Ended? ==> s.down.completed == |s.down.delivered|
  {
    RunKeepsInv(Init(upSource, downSource), steps, s);
    SourcesAreFixed(Init(upSource, downSource), steps, s);
  }

  // ---------- The idle checker ----------

  const IDLE_CHECK_DIVISOR := 4
  const MILLISECOND := 1_000_000
  const MIN_IDLE_CHECK_INTERVAL := 10 * MILLISECOND

  function CheckInterval(idleTimeout: nat): (i: nat)
    ensures idleTimeout < 40_000_000 ==> i == 10_000_000
    ensures idleTimeout >= 40_000_000 ==> 4 * i <= idleTimeout < 4 * i + 4
  {
    if idleTimeout / IDLE_CHECK_DIVISOR < MIN_IDLE_CHECK_INTERVAL then MIN_IDLE_CHECK_INTERVAL
    else idleTimeout / IDLE_CHECK_DIVISOR
  }

  ghost predicate Sorted(s: seq<int>) {
    forall i, j :: 0 <= i < j < |s| ==> s[i] <= s[j]
  }

  /** No read or write happened in the half-open interval (from, to]. */
  ghost predicate Silent(activity: seq<int>, from: int, to: int) {
    forall i :: 0 <= i < |activity| ==> !(from < activity[i] <= to)
  }

  /** The most recent activity up to an instant, as the shared clock holds it. */
  function LastActivity(activity: seq<int>, now: int): (last: int)
    requires |activity| > 0 && activity[0] <= now && Sorted(activity)
    ensures last in activity && last <= now && Silent(activity, last, now)
    decreases |activity|
  {
    var n := |activity|;
    if activity[n - 1] <= now then activity[n - 1]
    else
      var last := LastActivity(activity[..n - 1], now);
      assert activity == activity[..n - 1] + [activity[n - 1]];
      last
  }

  /** The checker with on-time ticks, started together with the first activity: it closes at the first tick
      that finds idleTimeout of silence, never in a shorter gap, and at the latest less than one check
      interval after the last activity has been idleTimeout ago. That is a quarter of the timeout, or 10 ms when
      the timeout is shorter than 40 ms. */
  method IdleChecker(start: int, idleTimeout: nat, activity: seq<int>) returns (closedAt: int, ticks: nat)
    requires idleTimeout > 0 && |activity| > 0 && activity[0] == start && Sorted(activity)
    ensures ticks > 0 && closedAt == start + ticks * CheckInterval(idleTimeout)
    ensures Silent(activity, closedAt - idleTimeout, closedAt)
    ensures forall k :: 0 < k < ticks ==>
              !Silent(activity, start + k * CheckInterval(idleTimeout) - idleTimeout, start + k * CheckInterval(idleTimeout))
    ensures closedAt < activity[|activity| - 1] + idleTimeout + CheckInterval(idleTimeout)
    ensures if idleTimeout < 40_000_000 then closedAt < activity[|activity| - 1] + idleTimeout + 10_000_000
            else 4 * closedAt < 4 * activity[|activity| - 1] + 5 * idleTimeout
  {
    var interval := CheckInterval(idleTimeout);
    ghost var final := activity[|activity| - 1];
    var now := start;
    ticks := 0;
    while true
      invariant now == start + ticks * interval && now >= start
      invariant now < final + idleTimeout
      invariant forall k :: 0 < k <= ticks ==> !Silent(activity, start + k * interval - idleTimeout, start + k * interval)
      decreases final + idleTimeout - now
    {
      ticks := ticks + 1;
      now := now + interval;
      assert now == start + ticks * interval;
      var last := LastActivity(activity, now);
      if now - last >= idleTimeout {
        return now, ticks;
      }
      assert last <= final;
    }
  }
}
