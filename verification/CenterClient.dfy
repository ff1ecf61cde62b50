/** The Edge's control connection: sendMsg and Disconnect across channel generations (src/edge/edge.go). */
module CenterClientModel {
  import opened Common

  const QUEUE_CAPACITY := 256

  type Msg = string

  /** One generation of the channels: the done channel, the write queue and the closeOnce guarding them. */
  datatype Gen = Gen(done: bool, queue: seq<Msg>, queueClosed: bool, once: bool)

  const OPEN_GEN := Gen(false, [], false, false)

  /** Panicked stands for a send on a closed channel or a second close, which stop the process. */
  datatype Outcome = Ignored | Queued | QueueFull | Panicked

  function Sent(g: Gen, m: Msg): (Gen, Outcome) {
    if g.done then (g, Ignored)
    else if g.queueClosed then (g, Panicked)
    else if |g.queue| < QUEUE_CAPACITY then (g.(queue := g.queue + [m]), Queued)
    else (g, QueueFull)
  }

  /** The first half of Disconnect: closes both channels once. */
  function ClosedOnce(g: Gen): (Gen, Outcome) {
    if g.once then (g, Ignored)
    else if g.done || g.queueClosed then (g, Panicked)
    else (g.(done := true, queueClosed := true, once := true), Queued)
  }

  /** A message joins an open queue with room behind all others, a full one changes nothing, and once done is
      closed it is ignored. */
  lemma MessagesAreQueued(g: Gen, m: Msg)
    requires g.done == g.queueClosed
    ensures Sent(g, m) == if g.done then (g, Ignored)
                          else if |g.queue| >= 256 then (g, QueueFull)
                          else (Gen(false, g.queue + [m], false, g.once), Queued)
  {
  }

  /** The first Disconnect of a generation closes both channels and leaves the queued messages to the writer; a
      second one does nothing. */
  lemma DisconnectClosesOnce(g: Gen)
    requires g.done == g.queueClosed == g.once
    ensures ClosedOnce(g).0 == Gen(true, g.queue, true, true) && !ClosedOnce(g).1.Panicked?
    ensures ClosedOnce(ClosedOnce(g).0) == (ClosedOnce(g).0, Ignored)
  {
  }

  class CenterClient {
    var done: bool
    var writeCh: seq<Msg>
    var writeChClosed: bool
    var closeOnceDone: bool
    var connected: bool    // a connection is set and not closed from this side

    ghost function Channels(): Gen
      reads this
    {
      Gen(done, writeCh, writeChClosed, closeOnceDone)
    }

    constructor ()
      ensures Channels() == OPEN_GEN && !connected
    {
      done, writeCh, writeChClosed, closeOnceDone, connected := false, [], false, false, false;
    }

    /** Connect sets the connection once it has been dialled. */
    method SetConn()
      modifies `connected
      ensures connected && Channels() == old(Channels())
    {
      connected := true;
    }

    method SendMsg(m: Msg) returns (r: Outcome)
      modifies this
      ensures (Channels(), r) == Sent(old(Channels()), m)
      ensures connected == (old(connected) && !r.QueueFull?)
    {
      if done {
        return Ignored;
      }
      if writeChClosed {
        return Panicked;
      }
      if |writeCh| < QUEUE_CAPACITY {
        writeCh := writeCh + [m];
        return Queued;
      }
      connected := false;
      r := QueueFull;
    }

    method DisconnectClose() returns (r: Outcome)
      modifies this
      ensures (Channels(), r) == ClosedOnce(old(Channels()))
      ensures connected == (old(connected) && !r.Queued?)
    {
      if closeOnceDone {
        return Ignored;
      }
      if done || writeChClosed {
        return Panicked;
      }
      done, writeChClosed, closeOnceDone, connected := true, true, true, false;
      r := Queued;
    }

    /** The second half, after every loop of the old generation has ended. */
    method DisconnectRebuild()
      modifies this
      ensures Channels() == OPEN_GEN && !connected
    {
      done, writeCh, writeChClosed, closeOnceDone, connected := false, [], false, false, false;
    }
  }

  /** All generations, the last being current, and the Disconnect calls between their two halves. */
  datatype State = State(gens: seq<Gen>, pending: set<nat>, panicked: bool)

  datatype Step =
    | Send(m: Msg)
    | DisconnectClose(caller: nat)
    | DisconnectRebuild(caller: nat)
    | WriteOut(gen: nat)      // the write loop of a generation takes the next message

  function Init(): State {
    State([OPEN_GEN], {}, false)
  }

  predicate Enabled(s: State, e: Step) {
    match e
    case Send(_) => true
    case DisconnectClose(c) => c !in s.pending
    case DisconnectRebuild(c) => c in s.pending
    case WriteOut(g) => g < |s.gens| && s.gens[g].queue != []
  }

  function Next(s: State, e: Step): State
    requires |s.gens| > 0 && Enabled(s, e)
  {
    var cur := |s.gens| - 1;
    match e
    case Send(m) =>
      var (g, r) := Sent(s.gens[cur], m);
      s.(gens := s.gens[cur := g], panicked := s.panicked || r.Panicked?)
    case DisconnectClose(c) =>
      var (g, r) := ClosedOnce(s.gens[cur]);
      s.(gens := s.gens[cur := g], pending := s.pending + {c}, panicked := s.panicked || r.Panicked?)
    case DisconnectRebuild(c) => s.(gens := s.gens + [OPEN_GEN], pending := s.pending - {c})
    case WriteOut(g) => s.(gens := s.gens[g := s.gens[g].(queue := s.gens[g].queue[1..])])
  }

  ghost predicate Reaches(from: State, steps: seq<Step>, s: State)
    decreases |steps|
  {
    if steps == [] then s == from
    else |from.gens| > 0 && Enabled(from, steps[0]) && Reaches(Next(from, steps[0]), steps[1..], s)
  }

  /** In every generation the three flags move together. */
  ghost predicate Inv(s: State) {
    && |s.gens| > 0 && !s.panicked
    && forall i :: 0 <= i < |s.gens| ==> s.gens[i].done == s.gens[i].queueClosed == s.gens[i].once
  }

  lemma {:induction false} RunKeepsInv(from: State, steps: seq<Step>, s: State)
    requires Inv(from) && Reaches(from, steps, s)
    ensures Inv(s)
    decreases |steps|
  {
    if steps != [] {
      RunKeepsInv(Next(from, steps[0]), steps[1..], s);
    }
  }

  /** Over every interleaving of sends and any number of overlapping Disconnects: nobody sends on a closed
      queue, nothing is closed twice, and a generation is closed exactly when its done channel is. */
  lemma NeverPanics(steps: seq<Step>, s: State)
    requires Reaches(Init(), steps, s)
    ensures !s.panicked && |s.gens| > 0
    ensures forall i :: 0 <= i < |s.gens| ==> s.gens[i].done == s.gens[i].queueClosed
  {
    RunKeepsInv(Init(), steps, s);
  }

  /** A closed generation accepts nothing any more. */
  lemma ClosedGenerationOnlyDrains(s: State, e: Step, i: nat)
    requires Inv(s) && Enabled(s, e) && i < |s.gens| && s.gens[i].done
    ensures var t := Next(s, e);
            i < |t.gens| && t.gens[i].done && |t.gens[i].queue| <= |s.gens[i].queue|
            && t.gens[i].queue == s.gens[i].queue[|s.gens[i].queue| - |t.gens[i].queue|..]
  {
  }

  // ---------- Which generations are closed ----------

  /** The last rebuild, if any, was followed by the first half of a Disconnect. */
  ghost predicate CloseSinceRebuild(steps: seq<Step>) {
    exists c :: 0 <= c < |steps| && steps[c].DisconnectClose? && forall u :: c < u < |steps| ==> !steps[u].DisconnectRebuild?
  }

  /** Every rebuild has the first half of some Disconnect, its own or another's, between it and the rebuild
      before. */
  ghost predicate RebuildsFollowCloses(steps: seq<Step>) {
    forall r :: 0 <= r < |steps| && steps[r].DisconnectRebuild? ==> CloseSinceRebuild(steps[..r])
  }

  predicate ReplacedAreClosed(s: State) {
    forall i :: 0 <= i < |s.gens| - 1 ==> s.gens[i].done
  }

  lemma CloseSinceStep(steps: seq<Step>, e: Step)
    ensures CloseSinceRebuild(steps + [e]) <==> e.DisconnectClose? || (CloseSinceRebuild(steps) && !e.DisconnectRebuild?)
  {
    var longer := steps + [e];
    assert forall u :: 0 <= u < |steps| ==> longer[u] == steps[u];
    assert longer[|steps|] == e;
    if CloseSinceRebuild(steps) && !e.DisconnectRebuild? {
      var c :| 0 <= c < |steps| && steps[c].DisconnectClose? && forall u :: c < u < |steps| ==> !steps[u].DisconnectRebuild?;
      assert longer[c].DisconnectClose?;
    }
    if CloseSinceRebuild(longer) && !e.DisconnectClose? {
      var c :| 0 <= c < |longer| && longer[c].DisconnectClose? && forall u :: c < u < |longer| ==> !longer[u].DisconnectRebuild?;
      assert steps[c].DisconnectClose?;
    }
  }

  lemma RebuildsFollowStep(steps: seq<Step>, e: Step)
    ensures RebuildsFollowCloses(steps + [e])
            <==> RebuildsFollowCloses(steps) && (e.DisconnectRebuild? ==> CloseSinceRebuild(steps))
  {
    var longer := steps + [e];
    assert longer[..|steps|] == steps && longer[|steps|] == e;
    assert forall r :: 0 <= r < |steps| ==> longer[r] == steps[r] && longer[..r] == steps[..r];
    if RebuildsFollowCloses(longer) {
      forall r | 0 <= r < |steps| && steps[r].DisconnectRebuild? ensures CloseSinceRebuild(steps[..r]) {
        assert longer[r].DisconnectRebuild? && longer[..r] == steps[..r];
      }
    }
  }

  /** What the steps so far say about the generations. */
  ghost predicate Told(steps: seq<Step>, s: State) {
    && Inv(s)
    && (s.gens[|s.gens| - 1].done <==> CloseSinceRebuild(steps))
    && (ReplacedAreClosed(s) <==> RebuildsFollowCloses(steps))
  }

  lemma StepKeepsTold(steps: seq<Step>, s: State, e: Step)
    requires Told(steps, s) && Enabled(s, e)
    ensures Told(steps + [e], Next(s, e))
  {
    LastTold(steps, s, e);
    ReplacedTold(steps, s, e);
  }

  lemma LastTold(steps: seq<Step>, s: State, e: Step)
    requires Inv(s) && Enabled(s, e) && (s.gens[|s.gens| - 1].done <==> CloseSinceRebuild(steps))
    ensures Inv(Next(s, e)) && (Next(s, e).gens[|Next(s, e).gens| - 1].done <==> CloseSinceRebuild(steps + [e]))
  {
    CloseSinceStep(steps, e);
    if e.DisconnectRebuild? {
      RebuildReplaces(s, e);
    } else {
      OthersReplaceNothing(s, e);
    }
  }

  lemma ReplacedTold(steps: seq<Step>, s: State, e: Step)
    requires Inv(s) && Enabled(s, e) && (s.gens[|s.gens| - 1].done <==> CloseSinceRebuild(steps))
    requires ReplacedAreClosed(s) <==> RebuildsFollowCloses(steps)
    ensures ReplacedAreClosed(Next(s, e)) <==> RebuildsFollowCloses(steps + [e])
  {
    RebuildsFollowStep(steps, e);
    if e.DisconnectRebuild? {
      RebuildReplaces(s, e);
    } else {
      OthersReplaceNothing(s, e);
    }
  }

  lemma RebuildReplaces(s: State, e: Step)
    requires Inv(s) && Enabled(s, e) && e.DisconnectRebuild?
    ensures Inv(Next(s, e)) && !Next(s, e).gens[|s.gens|].done && |Next(s, e).gens| == |s.gens| + 1
    ensures ReplacedAreClosed(Next(s, e)) <==> ReplacedAreClosed(s) && s.gens[|s.gens| - 1].done
  {
    var n := Next(s, e);
    assert forall i :: 0 <= i < |s.gens| ==> n.gens[i] == s.gens[i];
    if ReplacedAreClosed(n) {
      assert forall i :: 0 <= i < |s.gens| ==> n.gens[i].done;
    }
  }

  lemma OthersReplaceNothing(s: State, e: Step)
    requires Inv(s) && Enabled(s, e) && !e.DisconnectRebuild?
    ensures Inv(Next(s, e)) && |Next(s, e).gens| == |s.gens|
    ensures ReplacedAreClosed(Next(s, e)) <==> ReplacedAreClosed(s)
    ensures Next(s, e).gens[|s.gens| - 1].done <==> e.DisconnectClose? || s.gens[|s.gens| - 1].done
  {
    var n := Next(s, e);
    assert forall i :: 0 <= i < |s.gens| - 1 ==> n.gens[i].done == s.gens[i].done;
  }

  lemma {:induction false} RunKeepsTold(before: seq<Step>, from: State, steps: seq<Step>, s: State)
    requires Told(before, from) && Reaches(from, steps, s)
    ensures Told(before + steps, s)
    decreases |steps|
  {
    if steps == [] {
      assert before + steps == before;
    } else {
      StepKeepsTold(before, from, steps[0]);
      SeamMoves(before, steps);
      RunKeepsTold(before + [steps[0]], Next(from, steps[0]), steps[1..], s);
    }
  }

  /** Exactly when every generation but the current one has been closed, over every run. */
  lemma ReplacedGenerationsClosedExactly(steps: seq<Step>, s: State)
    requires Reaches(Init(), steps, s)
    ensures ReplacedAreClosed(s) <==> RebuildsFollowCloses(steps)
  {
    assert [] + steps == steps;
    RunKeepsTold([], Init(), steps, s);
  }

  /** Disconnects that do not overlap. */
  ghost predicate Serial(from: State, steps: seq<Step>)
    decreases |steps|
  {
    steps == [] ||
    (|from.gens| > 0 && Enabled(from, steps[0]) && (steps[0].DisconnectClose? ==> from.pending == {})
     && Serial(Next(from, steps[0]), steps[1..]))
  }

  ghost predicate SerialSoFar(s: State) {
    && Inv(s) && ReplacedAreClosed(s)
    && (s.pending != {} ==> s.gens[|s.gens| - 1].once && forall a, b :: a in s.pending && b in s.pending ==> a == b)
  }

  lemma {:induction false} SerialKeepsReplacedClosed(from: State, steps: seq<Step>, s: State)
    requires SerialSoFar(from) && Serial(from, steps) && Reaches(from, steps, s)
    ensures SerialSoFar(s)
    decreases |steps|
  {
    if steps != [] {
      SerialKeepsReplacedClosed(Next(from, steps[0]), steps[1..], s);
    }
  }

  /** As long as Disconnects do not overlap, every rebuild follows a close, its own. */
  lemma SerialDisconnectsCloseEveryGeneration(steps: seq<Step>, s: State)
    requires Serial(Init(), steps) && Reaches(Init(), steps, s)
    ensures ReplacedAreClosed(s) && RebuildsFollowCloses(steps)
  {
    SerialKeepsReplacedClosed(Init(), steps, s);
    ReplacedGenerationsClosedExactly(steps, s);
  }

  /** Two overlapping Disconnects can replace a generation that was never closed: a message sent between
      their rebuilds stays queued in it, and its write loop is never told to end. */
  lemma OverlapDropsAnOpenGeneration(m: Msg) returns (steps: seq<Step>, s: State)
    ensures Reaches(Init(), steps, s) && |s.gens| == 3 && s.pending == {}
    ensures !s.gens[1].done && s.gens[1].queue == [m]
  {
    s, steps := Append(Init(), [], Init(), DisconnectClose(1));
    s, steps := Append(Init(), steps, s, DisconnectClose(2));
    s, steps := Append(Init(), steps, s, DisconnectRebuild(1));
    s, steps := Append(Init(), steps, s, Send(m));
    s, steps := Append(Init(), steps, s, DisconnectRebuild(2));
  }

  lemma {:induction false} Append(a: State, xs: seq<Step>, b: State, e: Step) returns (c: State, steps: seq<Step>)
    requires Reaches(a, xs, b) && |b.gens| > 0 && Enabled(b, e)
    ensures c == Next(b, e) && steps == xs + [e] && Reaches(a, steps, c)
    decreases |xs|
  {
    c, steps := Next(b, e), xs + [e];
    if xs == [] {
      assert steps == [e] && steps[1..] == [];
    } else {
      var c1, rest := Append(Next(a, xs[0]), xs[1..], b, e);
      assert steps[1..] == rest;
    }
  }
}
