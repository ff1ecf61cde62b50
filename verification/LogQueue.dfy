/** The bounded asynchronous log queue (src/logx/logx.go). */
module LogQueue {

  const QUEUE_SIZE := 4096

  /** A queued record carries the number of its call; a barrier belongs to one Flush. */
  datatype Entry = Record(call: nat) | Barrier(flush: nat)

  datatype Line = Written(call: nat) | Notice(dropped: nat)

  datatype Hand = Empty | Holding(entry: Entry, noticed: bool)

  /** `calls` counts the calls accepted by the level filter, `dropping` those of them that have found the queue
      full and not yet counted it; `hand` is the entry the writer has taken. `accepted` and `handled` are the
      entries ever queued and ever finished. */
  datatype State = State(
    calls: nat,
    queue: seq<Entry>,
    dropping: nat,
    dropped: nat,
    hand: Hand,
    out: seq<Line>,
    accepted: seq<Entry>,
    handled: seq<Entry>
  )

  function Init(): State {
    State(0, [], 0, 0, Empty, [], [], [])
  }

  datatype Step =
    | Call                    // one log call queues its record, or finds the queue full
    | CountDrop               // and then counts it as dropped
    | QueueBarrier(flush: nat)
    | Take                    // the writer receives the next entry
    | NoticeDrops             // it swaps the drop counter out and reports it
    | Finish                  // it writes the record, or fires the barrier

  predicate Enabled(s: State, e: Step) {
    match e
    case Call => true
    case CountDrop => s.dropping > 0
    case QueueBarrier(_) => |s.queue| < QUEUE_SIZE
    case Take => s.hand.Empty? && s.queue != []
    case NoticeDrops => s.hand.Holding? && s.hand.entry.Record? && !s.hand.noticed
    case Finish => s.hand.Holding? && (s.hand.entry.Barrier? || s.hand.noticed)
  }

  function Enqueued(s: State, e: Entry): State {
    s.(queue := s.queue + [e], accepted := s.accepted + [e])
  }

  function Next(s: State, e: Step): State
    requires Enabled(s, e)
  {
    match e
    case Call =>
      if |s.queue| < QUEUE_SIZE then Enqueued(s, Record(s.calls)).(calls := s.calls + 1)
      else s.(calls := s.calls + 1, dropping := s.dropping + 1)
    case CountDrop => s.(dropping := s.dropping - 1, dropped := s.dropped + 1)
    case QueueBarrier(f) => Enqueued(s, Barrier(f))
    case Take => s.(hand := Holding(s.queue[0], false), queue := s.queue[1..])
    case NoticeDrops =>
      s.(hand := s.hand.(noticed := true), dropped := 0, out := if s.dropped > 0 then s.out + [Notice(s.dropped)] else s.out)
    case Finish =>
      var e := s.hand.entry;
      s.(hand := Empty, handled := s.handled + [e], out := if e.Record? then s.out + [Written(e.call)] else s.out)
  }

  ghost predicate Reaches(from: State, steps: seq<Step>, s: State)
    decreases |steps|
  {
    if steps == [] then s == from
    else Enabled(from, steps[0]) && Reaches(Next(from, steps[0]), steps[1..], s)
  }

  // ---------- The logger object ----------

  class Logger {
    var calls: nat
    var ch: seq<Entry>
    var dropped: nat
    var out: seq<Line>
    var hand: Hand
    ghost var accepted: seq<Entry>
    ghost var handled: seq<Entry>

    ghost function View(): State
      reads this
    {
      State(calls, ch, 0, dropped, hand, out, accepted, handled)
    }

    constructor ()
      ensures View() == Init()
    {
      calls, ch, dropped, out, hand := 0, [], 0, [], Empty;
      accepted, handled := [], [];
    }

    /** One call, undisturbed: it takes one step, or two when the queue is full. */
    method Enqueue()
      modifies this
      ensures View() == if old(|ch|) < QUEUE_SIZE then Next(old(View()), Call) else Next(Next(old(View()), Call), CountDrop)
    {
      var e := Record(calls);
      calls := calls + 1;
      if |ch| < QUEUE_SIZE {
        ch := ch + [e];
        accepted := accepted + [e];
      } else {
        dropped := dropped + 1;
      }
    }

    /** One turn of the writer on the entry it receives: a barrier fires, a record is preceded by a notice
        about the drops since the previous record. */
    method WriteNext() returns (ghost steps: seq<Step>)
      requires hand.Empty? && |ch| > 0
      modifies this
      ensures Reaches(old(View()), steps, View()) && hand.Empty?
      ensures ch == old(ch)[1..] && handled == old(handled) + [old(ch)[0]]
    {
      ghost var s0 := View();
      hand := Holding(ch[0], false);
      ch := ch[1..];
      if hand.entry.Record? {
        if dropped > 0 {
          out := out + [Notice(dropped)];
          dropped := 0;
        }
        hand := hand.(noticed := true);
        ghost var s2 := View();
        out := out + [Written(hand.entry.call)];
        handled := handled + [hand.entry];
        hand := Empty;
        steps := [Take, NoticeDrops, Finish];
        assert steps[1..][1..][1..] == [];
        assert Next(Next(s0, Take), NoticeDrops) == s2;
        assert Next(s2, Finish) == View();
      } else {
        handled := handled + [hand.entry];
        hand := Empty;
        steps := [Take, Finish];
        assert steps[1..][1..] == [];
        assert Next(Next(s0, Take), Finish) == View();
      }
    }
  }

  // ---------- Properties of all runs ----------

  function Calls(es: seq<Entry>): (r: seq<nat>)
    ensures |r| <= |es|
  {
    if es == [] then []
    else
      var e := es[|es| - 1];
      Calls(es[..|es| - 1]) + if e.Record? then [e.call] else []
  }

  function WrittenCalls(out: seq<Line>): seq<nat> {
    if out == [] then []
    else
      var l := out[|out| - 1];
      WrittenCalls(out[..|out| - 1]) + if l.Written? then [l.call] else []
  }

  function Noticed(out: seq<Line>): nat {
    if out == [] then 0
    else
      var l := out[|out| - 1];
      Noticed(out[..|out| - 1]) + if l.Notice? then l.dropped else 0
  }

  function InHand(h: Hand): seq<Entry> {
    if h.Holding? then [h.entry] else []
  }

  ghost predicate Increasing(ns: seq<nat>) {
    forall i, j :: 0 <= i < j < |ns| ==> ns[i] < ns[j]
  }

  lemma {:induction false} CallsOfConcat(a: seq<Entry>, b: seq<Entry>)
    ensures Calls(a + b) == Calls(a) + Calls(b)
  {
    if b == [] {
      assert a + b == a;
    } else {
      var n := |b| - 1;
      assert (a + b)[..|a| + n] == a + b[..n];
      CallsOfConcat(a, b[..n]);
    }
  }

  /** Written records are exactly the handled ones. */
  predicate WritesHandled(s: State) {
    WrittenCalls(s.out) == Calls(s.handled)
  }

  /** Entries are handled in the order they were accepted. */
  predicate InOrder(s: State) {
    s.accepted == s.handled + (InHand(s.hand) + s.queue)
  }

  /** Call numbers grow along the accepted records. */
  ghost predicate Numbered(s: State) {
    Increasing(Calls(s.accepted)) && forall i :: 0 <= i < |Calls(s.accepted)| ==> Calls(s.accepted)[i] < s.calls
  }

  /** Every call is accepted, reported as dropped, waiting in the drop counter, or about to be counted. */
  predicate Accounted(s: State) {
    s.calls == |Calls(s.accepted)| + Noticed(s.out) + s.dropped + s.dropping
  }

  ghost predicate Inv(s: State) {
    |s.queue| <= QUEUE_SIZE && InOrder(s) && WritesHandled(s) && Numbered(s) && Accounted(s)
  }

  lemma CallsAppend(es: seq<Entry>, e: Entry)
    ensures Calls(es + [e]) == Calls(es) + if e.Record? then [e.call] else []
  {
    assert (es + [e])[..|es|] == es;
  }

  lemma WrittenAppend(out: seq<Line>, l: Line)
    ensures WrittenCalls(out + [l]) == WrittenCalls(out) + if l.Written? then [l.call] else []
    ensures Noticed(out + [l]) == Noticed(out) + if l.Notice? then l.dropped else 0
  {
    assert (out + [l])[..|out|] == out;
  }

  lemma QueueGrows(handled: seq<Entry>, rest: seq<Entry>, queue: seq<Entry>, e: Entry)
    ensures (handled + (rest + queue)) + [e] == handled + (rest + (queue + [e]))
  {
  }

  lemma EnqueueKeepsOrder(s: State, e: Entry)
    requires InOrder(s)
    ensures InOrder(Enqueued(s, e))
  {
    QueueGrows(s.handled, InHand(s.hand), s.queue, e);
  }

  lemma CallKeepsInv(s: State)
    requires Inv(s)
    ensures Inv(Next(s, Call))
  {
    if |s.queue| < QUEUE_SIZE {
      CallsAppend(s.accepted, Record(s.calls));
      EnqueueKeepsOrder(s, Record(s.calls));
    }
  }

  lemma BarrierKeepsInv(s: State, f: nat)
    requires Inv(s) && Enabled(s, QueueBarrier(f))
    ensures Inv(Next(s, QueueBarrier(f)))
  {
    CallsAppend(s.accepted, Barrier(f));
    EnqueueKeepsOrder(s, Barrier(f));
  }

  lemma TakeKeepsInv(s: State)
    requires Inv(s) && Enabled(s, Take)
    ensures Inv(Next(s, Take))
  {
    assert InHand(s.hand) + s.queue == s.queue == [s.queue[0]] + s.queue[1..];
  }

  lemma NoticeKeepsInv(s: State)
    requires Inv(s) && Enabled(s, NoticeDrops)
    ensures Inv(Next(s, NoticeDrops))
  {
    WrittenAppend(s.out, Notice(s.dropped));
  }

  lemma HandOver(handled: seq<Entry>, e: Entry, queue: seq<Entry>)
    ensures handled + ([e] + queue) == (handled + [e]) + ([] + queue)
  {
  }

  lemma FinishKeepsInv(s: State)
    requires Inv(s) && Enabled(s, Finish)
    ensures Inv(Next(s, Finish))
  {
    var e := s.hand.entry;
    HandOver(s.handled, e, s.queue);
    CallsAppend(s.handled, e);
    if e.Record? {
      WrittenAppend(s.out, Written(e.call));
    }
  }

  lemma StepKeepsInv(s: State, e: Step)
    requires Inv(s) && Enabled(s, e)
    ensures Inv(Next(s, e))
  {
    match e {
      case Call => CallKeepsInv(s);
      case CountDrop =>
      case QueueBarrier(f) => BarrierKeepsInv(s, f);
      case Take => TakeKeepsInv(s);
      case NoticeDrops => NoticeKeepsInv(s);
      case Finish => FinishKeepsInv(s);
    }
  }

  lemma {:induction false} RunKeepsInv(from: State, steps: seq<Step>, s: State)
    requires Inv(from) && Reaches(from, steps, s)
    ensures Inv(s)
    decreases |steps|
  {
    if steps != [] {
      StepKeepsInv(from, steps[0]);
      RunKeepsInv(Next(from, steps[0]), steps[1..], s);
    }
  }

  /** Conservation: accepted calls are written, in the writer's hand, queued, or dropped, and every drop is in
      exactly one notice, still pending in the counter, or about to be counted. */
  lemma CallsAreConserved(steps: seq<Step>, s: State)
    requires Reaches(Init(), steps, s)
    ensures s.calls == |WrittenCalls(s.out)| + |Calls(InHand(s.hand))| + |Calls(s.queue)| + Noticed(s.out) + s.dropped + s.dropping
    ensures |s.queue| <= QUEUE_SIZE
  {
    RunKeepsInv(Init(), steps, s);
    CallsOfConcat(s.handled, InHand(s.hand) + s.queue);
    CallsOfConcat(InHand(s.hand), s.queue);
  }

  /** Records are written in call order, each at most once. */
  lemma WrittenInCallOrder(steps: seq<Step>, s: State)
    requires Reaches(Init(), steps, s)
    ensures Increasing(WrittenCalls(s.out))
    ensures forall i :: 0 <= i < |WrittenCalls(s.out)| ==> WrittenCalls(s.out)[i] < s.calls
  {
    RunKeepsInv(Init(), steps, s);
    CallsOfConcat(s.handled, InHand(s.hand) + s.queue);
    PrefixIsIncreasing(WrittenCalls(s.out), Calls(InHand(s.hand) + s.queue), s.calls);
  }

  lemma PrefixIsIncreasing(some: seq<nat>, rest: seq<nat>, limit: nat)
    requires Increasing(some + rest) && forall i :: 0 <= i < |some + rest| ==> (some + rest)[i] < limit
    ensures Increasing(some) && forall i :: 0 <= i < |some| ==> some[i] < limit
  {
    assert forall i :: 0 <= i < |some| ==> some[i] == (some + rest)[i];
  }

  lemma {:induction false} AcceptedOnlyGrows(from: State, steps: seq<Step>, s: State)
    requires Reaches(from, steps, s)
    ensures from.accepted <= s.accepted
    decreases |steps|
  {
    if steps != [] {
      AcceptedOnlyGrows(Next(from, steps[0]), steps[1..], s);
    }
  }

  /** A Flush queues its barrier in state `s1`, and the barrier has fired in `s` once that entry, at position
      |s1.accepted|, has been handled: by then every record accepted before the Flush has been written. */
  lemma FiredFlushHasWrittenEarlierRecords(before: seq<Step>, s1: State, flush: nat, after: seq<Step>, s: State)
    requires Reaches(Init(), before, s1) && Enabled(s1, QueueBarrier(flush))
    requires Reaches(Next(s1, QueueBarrier(flush)), after, s) && |s.handled| > |s1.accepted|
    ensures s.handled[|s1.accepted|] == Barrier(flush)
    ensures Calls(s1.accepted) <= WrittenCalls(s.out)
  {
    RunKeepsInv(Init(), before, s1);
    StepKeepsInv(s1, QueueBarrier(flush));
    RunKeepsInv(Next(s1, QueueBarrier(flush)), after, s);
    AcceptedOnlyGrows(Next(s1, QueueBarrier(flush)), after, s);
    HandledPast(s1.accepted, Barrier(flush), s.handled, InHand(s.hand) + s.queue);
    CallsOfConcat(s1.accepted, s.handled[|s1.accepted|..]);
  }

  lemma HandledPast(earlier: seq<Entry>, e: Entry, handled: seq<Entry>, rest: seq<Entry>)
    requires earlier + [e] <= handled + rest && |handled| > |earlier|
    ensures handled[|earlier|] == e && handled == earlier + handled[|earlier|..]
  {
    var accepted := handled + rest;
    assert handled[..|earlier|] == accepted[..|earlier|] == (earlier + [e])[..|earlier|] == earlier;
    assert handled[|earlier|] == accepted[|earlier|] == (earlier + [e])[|earlier|];
  }

  /** The calls of a run that found 4096 entries queued. */
  ghost function CallsAtFullQueue(from: State, steps: seq<Step>): nat
    decreases |steps|
  {
    if steps == [] || !Enabled(from, steps[0]) then 0
    else (if steps[0].Call? && |from.queue| >= 4096 then 1 else 0) + CallsAtFullQueue(Next(from, steps[0]), steps[1..])
  }

  /** A call is dropped exactly when it finds the queue full, and no drop is forgotten or counted twice. */
  lemma {:induction false} DropsAreCallsAtFullQueue(from: State, steps: seq<Step>, s: State)
    requires Reaches(from, steps, s)
    ensures Noticed(s.out) + s.dropped + s.dropping
            == Noticed(from.out) + from.dropped + from.dropping + CallsAtFullQueue(from, steps)
    decreases |steps|
  {
    if steps != [] {
      var e := steps[0];
      if e.NoticeDrops? {
        WrittenAppend(from.out, Notice(from.dropped));
      } else if e.Finish? && from.hand.entry.Record? {
        WrittenAppend(from.out, Written(from.hand.entry.call));
      }
      DropsAreCallsAtFullQueue(Next(from, e), steps[1..], s);
    }
  }
}
