/** The write-behind topology cache as a state machine over its atomic steps (src/edge/topo_cache.go). */
module TopoCacheModel {
  import opened Common

  type NodeInfo = string

  /** What memory holds and what a complete file stores. */
  datatype Content = Content(nodes: seq<NodeInfo>, secret: string) {
    predicate HasData() {
      |nodes| > 0 || secret != ""
    }
  }

  /** A file on disk: absent, written by an earlier process, or holding the store with index `store`,
      cut short or whole. */
  datatype File =
    | Absent
    | Earlier(content: Content)
    | Partial(store: nat)
    | Whole(store: nat)

  /** One run of SaveToFile. A snapshot is the index of the store it took from memory. */
  datatype Saver =
    | Waiting                    // for writeMu
    | Locked
    | Taken(snapshot: nat)
    | Writing(snapshot: nat)     // the temporary file is truncated and being written
    | Written(snapshot: nat)     // the temporary file is complete
  {
    predicate HasSnapshot() {
      Taken? || Writing? || Written?
    }
  }

  /** Who runs a save: the write loop, the flush of Close, or another caller. */
  datatype SaverId = Loop | Closer | Caller(id: nat)

  /** How far Close has come, the latest store as it began, and whether memory held data then. */
  datatype Closing =
    | NotClosed
    | Flushing(began: nat, hadData: bool)
    | LoopTold(began: nat, hadData: bool)
    | Closed(began: nat, hadData: bool)

  /** What a LoadFromFile has read: the file as it was, and its content. */
  datatype Reading = Reading(file: File, content: Content)

  /** `history` lists every content memory has had, oldest first; memory is its last element, and index 0
      is the empty memory of a new cache. `loaders` are the LoadFromFile calls between their read and their
      store, and `loads` gives for each index stored by one what it had read. `posting` counts callers
      between their store and their notification, `token` is the notification channel of capacity 1, and
      `failed` is the newest store whose save ended in an error. */
  datatype State = State(
    history: seq<Content>,
    loaders: map<nat, Reading>,
    loads: map<nat, Reading>,
    file: File,
    tmp: File,
    posting: nat,
    token: bool,
    savers: map<SaverId, Saver>,
    failed: Option<nat>,
    closing: Closing
  ) {
    function Latest(): int {
      |history| - 1
    }

    predicate Shaped() {
      |history| > 0
    }

    function Memory(): Content
      requires Shaped()
    {
      history[|history| - 1]
    }

    /** The lock writeMu is held. */
    predicate Busy() {
      exists i :: i in savers && !savers[i].Waiting?
    }

    /** No caller is between store and notification, no notification is pending, and no save runs. */
    predicate Idle() {
      posting == 0 && !token && savers == map[]
    }

    /** Nor is a load between its two steps. */
    predicate Quiescent() {
      Idle() && loaders == map[]
    }
  }

  predicate FromBefore(f: File) {
    f.Absent? || f.Earlier?
  }

  /** The file `f` holds the content `c`. */
  predicate Holds(f: File, history: seq<Content>, c: Content) {
    match f
    case Earlier(d) => c == d
    case Whole(k) => k < |history| && history[k] == c
    case _ => false
  }

  function Init(file: File): State {
    State([Content([], "")], map[], map[], file, Absent, 0, false, map[], None, NotClosed)
  }

  /** The atomic steps of the updaters, the write loop, the savers and Close. */
  datatype Step =
    | StoreNodes(nodes: seq<NodeInfo>)     // Update, under mu
    | StoreSecret(secret: string)          // SetSecret, under mu
    | LoadRead(id: nat, content: Content)  // LoadFromFile reads a file that lists nodes
    | LoadStore(id: nat)                   // and stores what it has read, under mu
    | Notify                               // requestSave
    | LoopTake                             // the write loop receives a notification
    | CallSave(id: nat)                    // a direct call of SaveToFile
    | Lock(s: SaverId)
    | TakeSnapshot(s: SaverId)
    | OpenTmp(s: SaverId)
    | FinishTmp(s: SaverId)
    | Rename(s: SaverId)
    | SaveFails(s: SaverId)                // marshalling, directory, write or rename reports an error
    | CloseBegin
    | CloseFlushed
    | LoopExits

  predicate InSave(s: State, i: SaverId) {
    i in s.savers
  }

  predicate Enabled(s: State, e: Step) {
    match e
    case StoreNodes(_) => true
    case StoreSecret(_) => true
    case LoadRead(id, c) =>
      && id !in s.loaders
      && Holds(s.file, s.history, c)
      && |c.nodes| > 0
    case LoadStore(id) => id in s.loaders
    case Notify => s.posting > 0
    case LoopTake => s.token && !InSave(s, Loop) && !s.closing.Closed?
    case CallSave(id) => !InSave(s, Caller(id))
    case Lock(i) => InSave(s, i) && s.savers[i].Waiting? && !s.Busy()
    case TakeSnapshot(i) => InSave(s, i) && s.savers[i].Locked?
    case OpenTmp(i) => InSave(s, i) && s.savers[i].Taken?
    case FinishTmp(i) => InSave(s, i) && s.savers[i].Writing?
    case Rename(i) => InSave(s, i) && s.savers[i].Written?
    case SaveFails(i) => InSave(s, i) && s.savers[i].HasSnapshot()
    case CloseBegin => s.closing.NotClosed?
    case CloseFlushed => s.closing.Flushing? && !InSave(s, Closer)
    case LoopExits => s.closing.LoopTold? && !InSave(s, Loop)
  }

  function Stored(s: State, c: Content): State {
    s.(history := s.history + [c], posting := s.posting + 1)
  }

  function Next(s: State, e: Step): State
    requires s.Shaped() && Enabled(s, e)
  {
    match e
    case StoreNodes(nodes) => Stored(s, s.Memory().(nodes := nodes))
    case StoreSecret(secret) => Stored(s, s.Memory().(secret := secret))
    case LoadRead(id, c) => s.(loaders := s.loaders[id := Reading(s.file, c)])
    case LoadStore(id) =>
      s.(history := s.history + [s.loaders[id].content], loads := s.loads[|s.history| := s.loaders[id]],
         loaders := s.loaders - {id})
    case Notify => s.(posting := s.posting - 1, token := true)
    case LoopTake => s.(token := false, savers := s.savers[Loop := Waiting])
    case CallSave(id) => s.(savers := s.savers[Caller(id) := Waiting])
    case Lock(i) => s.(savers := s.savers[i := Locked])
    case TakeSnapshot(i) => s.(savers := s.savers[i := Taken(|s.history| - 1)])
    case OpenTmp(i) => s.(tmp := Partial(s.savers[i].snapshot), savers := s.savers[i := Writing(s.savers[i].snapshot)])
    case FinishTmp(i) => s.(tmp := Whole(s.savers[i].snapshot), savers := s.savers[i := Written(s.savers[i].snapshot)])
    case Rename(i) => s.(file := s.tmp, tmp := Absent, savers := s.savers - {i})
    case SaveFails(i) => s.(savers := s.savers - {i}, failed := NewestFailure(s.failed, s.savers[i].snapshot))
    case CloseBegin =>
      var hasData := s.Memory().HasData();
      s.(closing := Flushing(|s.history| - 1, hasData), savers := if hasData then s.savers[Closer := Waiting] else s.savers)
    case CloseFlushed => s.(closing := LoopTold(s.closing.began, s.closing.hadData))
    case LoopExits => s.(closing := Closed(s.closing.began, s.closing.hadData))
  }

  function NewestFailure(failed: Option<nat>, k: nat): Option<nat> {
    if failed.Some? && failed.value > k then failed else Some(k)
  }

  /** `s` is reached from `from` by those steps, each enabled when taken. */
  ghost predicate Reaches(from: State, steps: seq<Step>, s: State)
    decreases |steps|
  {
    if steps == [] then s == from
    else
      && from.Shaped()
      && Enabled(from, steps[0])
      && Reaches(Next(from, steps[0]), steps[1..], s)
  }

  // ---------- The invariant ----------

  /** The save `i` has not taken its snapshot yet. */
  predicate BeforeSnapshot(s: State, i: SaverId) {
    i in s.savers && !s.savers[i].HasSnapshot()
  }

  predicate HoldsSnapshot(s: State, i: SaverId, k: int) {
    i in s.savers && s.savers[i].HasSnapshot() && s.savers[i].snapshot == k
  }

  /** Something still leads to the latest store being written: a caller about to notify, a pending
      notification, a save that has not taken its snapshot, or one that has taken this very store. */
  ghost predicate WriteUnderWay(s: State) {
    || s.posting > 0
    || s.token
    || exists i :: BeforeSnapshot(s, i) || HoldsSnapshot(s, i, s.Latest())
  }

  /** The latest store is on disk, or its newest save failed. */
  predicate Settled(s: State)
    requires s.Shaped()
  {
    s.file == Whole(s.Latest()) || s.failed == Some(s.Latest())
  }

  ghost predicate NoUpdateForgotten(s: State)
    requires s.Shaped()
  {
    || s.Latest() == 0
    || s.Latest() in s.loads
    || Settled(s)
    || WriteUnderWay(s)
  }

  ghost predicate Exclusive(s: State) {
    forall i, j :: i in s.savers && j in s.savers && !s.savers[i].Waiting? && !s.savers[j].Waiting? ==> i == j
  }

  /** Snapshots in flight are real stores, none older than the file; a complete temporary file belongs to the
      save that wrote it. */
  ghost predicate SnapshotsOrdered(s: State) {
    forall i :: i in s.savers && s.savers[i].HasSnapshot() ==>
      && s.savers[i].snapshot < |s.history|
      && (s.file.Whole? ==> s.file.store <= s.savers[i].snapshot)
      && (s.savers[i].Written? ==> s.tmp == Whole(s.savers[i].snapshot))
  }

  ghost predicate FileComplete(s: State) {
    && !s.file.Partial?
    && (s.file.Whole? ==> s.file.store < |s.history|)
    && (s.failed.Some? ==> s.failed.value < |s.history|)
  }

  /** What Close has secured: its flush runs, or has written a store no older than the one it found, or a
      failure for such a store is recorded. */
  ghost predicate CloseSecures(s: State)
    requires s.Shaped()
  {
    && (Closer in s.savers ==> s.closing.Flushing? && s.closing.hadData)
    && (s.closing.Closed? ==> Loop !in s.savers)
    && (!s.closing.NotClosed? ==>
          && s.closing.began < |s.history|
          && s.closing.hadData == s.history[s.closing.began].HasData())
    && (!s.closing.NotClosed? && s.closing.hadData ==>
          BeforeSnapshot(s, Closer) || FlushTook(s) || WrittenSince(s, s.closing.began) || FailedSince(s, s.closing.began))
  }

  predicate FlushTook(s: State)
    requires !s.closing.NotClosed?
  {
    Closer in s.savers && s.savers[Closer].HasSnapshot() && s.savers[Closer].snapshot >= s.closing.began
  }

  predicate WrittenSince(s: State, k: nat) {
    s.file.Whole? && s.file.store >= k
  }

  predicate FailedSince(s: State, k: nat) {
    s.failed.Some? && s.failed.value >= k
  }

  /** What loads have read is content the file had, and the file has not gone back behind it. */
  ghost predicate LoadsTrue(s: State) {
    && (forall i :: i in s.loaders ==> Holds(s.loaders[i].file, s.history, s.loaders[i].content))
    && (forall i :: i in s.loads ==> i < |s.history| && Holds(s.loads[i].file, s.history, s.history[i]))
  }

  ghost predicate Inv(s: State) {
    && s.Shaped()
    && NoUpdateForgotten(s)
    && Exclusive(s)
    && SnapshotsOrdered(s)
    && FileComplete(s)
    && CloseSecures(s)
    && LoadsTrue(s)
  }

  lemma OthersKeepWriting(s: State, t: State, e: SaverId)
    requires s.history == t.history
    requires forall i :: i != e ==> (i in s.savers <==> i in t.savers) && (i in s.savers ==> t.savers[i] == s.savers[i])
    requires WriteUnderWay(s) && !(BeforeSnapshot(s, e) || HoldsSnapshot(s, e, s.Latest()))
    requires t.posting == s.posting && t.token == s.token
    ensures WriteUnderWay(t)
  {
    if s.posting == 0 && !s.token {
      var i :| BeforeSnapshot(s, i) || HoldsSnapshot(s, i, s.Latest());
      assert BeforeSnapshot(t, i) || HoldsSnapshot(t, i, t.Latest());
    }
  }

  lemma SameSaversKeepWriting(s: State, t: State)
    requires s.history == t.history && s.savers == t.savers && s.posting == t.posting && s.token == t.token
    ensures WriteUnderWay(s) ==> WriteUnderWay(t)
  {
    if WriteUnderWay(s) && s.posting == 0 && !s.token {
      var i :| BeforeSnapshot(s, i) || HoldsSnapshot(s, i, s.Latest());
      assert BeforeSnapshot(t, i) || HoldsSnapshot(t, i, t.Latest());
    }
  }

  lemma InvInit(file: File)
    requires FromBefore(file)
    ensures Inv(Init(file))
  {
  }

  predicate IsSaverStep(e: Step, i: SaverId) {
    match e
    case Lock(j) => i == j
    case TakeSnapshot(j) => i == j
    case OpenTmp(j) => i == j
    case FinishTmp(j) => i == j
    case Rename(j) => i == j
    case SaveFails(j) => i == j
    case _ => false
  }

  lemma SaverStepForgetsNothing(s: State, e: Step, i: SaverId)
    requires Inv(s) && Enabled(s, e) && IsSaverStep(e, i)
    ensures NoUpdateForgotten(Next(s, e)) && LoadsTrue(Next(s, e))
  {
    var t := Next(s, e);
    assert t.history == s.history;
    if WriteUnderWay(s) {
      if BeforeSnapshot(s, i) || HoldsSnapshot(s, i, s.Latest()) {
        assert BeforeSnapshot(t, i) || HoldsSnapshot(t, i, t.Latest()) || Settled(t);
      } else {
        OthersKeepWriting(s, t, i);
      }
    }
  }

  lemma SaverStepKeepsOrder(s: State, e: Step, i: SaverId)
    requires Inv(s) && Enabled(s, e) && IsSaverStep(e, i)
    ensures SnapshotsOrdered(Next(s, e))
  {
  }

  lemma SaverStepIsExclusive(s: State, e: Step, i: SaverId)
    requires Inv(s) && Enabled(s, e) && IsSaverStep(e, i)
    ensures Exclusive(Next(s, e)) && FileComplete(Next(s, e))
  {
  }

  lemma SaverStepKeepsClose(s: State, e: Step, i: SaverId)
    requires Inv(s) && Enabled(s, e) && IsSaverStep(e, i)
    ensures CloseSecures(Next(s, e))
  {
  }

  /** The steps of one save, whatever the others do. */
  lemma SaverStepKeepsInv(s: State, e: Step, i: SaverId)
    requires Inv(s) && Enabled(s, e) && IsSaverStep(e, i)
    ensures Inv(Next(s, e))
  {
    SaverStepForgetsNothing(s, e, i);
    SaverStepKeepsOrder(s, e, i);
    SaverStepIsExclusive(s, e, i);
    SaverStepKeepsClose(s, e, i);
  }

  lemma HoldsLonger(history: seq<Content>, c: Content)
    ensures forall f, d :: Holds(f, history, d) ==> Holds(f, history + [c], d)
  {
  }

  lemma StoreKeepsInv(s: State, e: Step)
    requires Inv(s) && Enabled(s, e) && (e.StoreNodes? || e.StoreSecret? || e.LoadStore?)
    ensures Inv(Next(s, e))
  {
    var t := Next(s, e);
    assert t.history == s.history + [t.Memory()];
    HoldsLonger(s.history, t.Memory());
    assert t.posting > 0 || t.Latest() in t.loads;
  }

  lemma LoadReadKeepsInv(s: State, e: Step)
    requires Inv(s) && Enabled(s, e) && e.LoadRead?
    ensures Inv(Next(s, e))
  {
    SameSaversKeepWriting(s, Next(s, e));
  }

  lemma LoopTakeKeepsInv(s: State)
    requires Inv(s) && Enabled(s, LoopTake)
    ensures Inv(Next(s, LoopTake))
  {
    assert BeforeSnapshot(Next(s, LoopTake), Loop);
  }

  /** A save that only waits for its lock disturbs nothing. */
  lemma SaverJoins(s: State, t: State, i: SaverId)
    requires Inv(s) && i !in s.savers && t.savers in {s.savers, s.savers[i := Waiting]}
    requires t == s.(savers := t.savers, closing := t.closing)
    ensures NoUpdateForgotten(t) && Exclusive(t) && SnapshotsOrdered(t) && FileComplete(t) && LoadsTrue(t)
  {
    if WriteUnderWay(s) {
      OthersKeepWriting(s, t, i);
    }
  }

  lemma CallSaveKeepsInv(s: State, id: nat)
    requires Inv(s) && Enabled(s, CallSave(id))
    ensures Inv(Next(s, CallSave(id)))
  {
    SaverJoins(s, Next(s, CallSave(id)), Caller(id));
  }

  lemma CloseBeginKeepsInv(s: State)
    requires Inv(s) && Enabled(s, CloseBegin)
    ensures Inv(Next(s, CloseBegin))
  {
    SaverJoins(s, Next(s, CloseBegin), Closer);
  }

  lemma CloseProgressKeepsInv(s: State, e: Step)
    requires Inv(s) && Enabled(s, e) && (e.CloseFlushed? || e.LoopExits?)
    ensures Inv(Next(s, e))
  {
    SameSaversKeepWriting(s, Next(s, e));
  }

  lemma NotifyKeepsInv(s: State)
    requires Inv(s) && Enabled(s, Notify)
    ensures Inv(Next(s, Notify))
  {
  }

  lemma StepKeepsInv(s: State, e: Step)
    requires Inv(s) && Enabled(s, e)
    ensures Inv(Next(s, e))
  {
    match e {
      case Lock(i) => SaverStepKeepsInv(s, e, i);
      case TakeSnapshot(i) => SaverStepKeepsInv(s, e, i);
      case OpenTmp(i) => SaverStepKeepsInv(s, e, i);
      case FinishTmp(i) => SaverStepKeepsInv(s, e, i);
      case Rename(i) => SaverStepKeepsInv(s, e, i);
      case SaveFails(i) => SaverStepKeepsInv(s, e, i);
      case LoadRead(_, _) => LoadReadKeepsInv(s, e);
      case Notify => NotifyKeepsInv(s);
      case LoopTake => LoopTakeKeepsInv(s);
      case CallSave(id) => CallSaveKeepsInv(s, id);
      case CloseBegin => CloseBeginKeepsInv(s);
      case CloseFlushed => CloseProgressKeepsInv(s, e);
      case LoopExits => CloseProgressKeepsInv(s, e);
      case _ => StoreKeepsInv(s, e);
    }
  }

  lemma {:induction false} RunKeepsInv(from: State, steps: seq<Step>, s: State)
    requires Inv(from) && Reaches(from, steps, s)
    ensures Inv(s)
    decreases |steps|
  {
    if steps != [] {
      StepKeepsInv(from, steps[0]);
      RunKeepsInv(Next(from, steps[0]), steps[1..], s);
    }
  }

  // ---------- The promises ----------

  /** Write-behind loses no update: in every interleaving, memory differs from the file only while a write is
      under way; so at rest the file holds exactly what memory holds, if the latest store was an update whose
      save did not fail. Rest cannot follow an update that came too late for the write loop: its
      notification then stays pending. */
  lemma QuiescentFileEqualsMemory(file: File, steps: seq<Step>, s: State)
    requires FromBefore(file) && Reaches(Init(file), steps, s)
    requires s.Latest() > 0 && s.Latest() !in s.loads && s.failed != Some(s.Latest())
    ensures s.file == Whole(s.Latest()) || WriteUnderWay(s)
    ensures s.Idle() ==> s.Shaped() && s.file == Whole(s.Latest()) && s.history[s.file.store] == s.Memory()
  {
    InvInit(file);
    RunKeepsInv(Init(file), steps, s);
  }

  /** A crash at any step leaves one complete snapshot, or the file of the earlier process. */
  lemma CrashLeavesACompleteFile(file: File, steps: seq<Step>, s: State)
    requires FromBefore(file) && Reaches(Init(file), steps, s)
    ensures s.file == file || (s.file.Whole? && s.file.store < |s.history|)
    decreases |steps|
  {
    CrashLeavesACompleteFileFrom(Init(file), steps, s, file);
  }

  lemma {:induction false} CrashLeavesACompleteFileFrom(from: State, steps: seq<Step>, s: State, file: File)
    requires FromBefore(file) && Reaches(from, steps, s) && Inv(from) && (from.file == file || from.file.Whole?)
    ensures s.file == file || (s.file.Whole? && s.file.store < |s.history|)
    decreases |steps|
  {
    if steps != [] {
      StepKeepsInv(from, steps[0]);
      CrashLeavesACompleteFileFrom(Next(from, steps[0]), steps[1..], s, file);
    }
  }

  predicate NoOlder(f: File, g: File) {
    f.Whole? ==> g.Whole? && f.store <= g.store
  }

  /** The file never goes back to an older snapshot, whoever saves and in whatever order. */
  lemma {:induction false} FileNeverGoesBack(from: State, steps: seq<Step>, s: State)
    requires Inv(from) && Reaches(from, steps, s)
    ensures NoOlder(from.file, s.file)
    decreases |steps|
  {
    if steps != [] {
      StepKeepsInv(from, steps[0]);
      FileNeverGoesBack(Next(from, steps[0]), steps[1..], s);
    }
  }

  /** What Close secures against everything that runs beside it: once it has returned, the file is no older
      than the memory Close found, if that was not empty and no save of it or of a later store failed. */
  lemma CloseFlushesWhatItFound(file: File, steps: seq<Step>, s: State)
    requires FromBefore(file) && Reaches(Init(file), steps, s) && s.closing.Closed?
    ensures s.closing.began < |s.history| && s.closing.hadData == s.history[s.closing.began].HasData()
    ensures (s.history[s.closing.began].nodes != [] || s.history[s.closing.began].secret != "")
            && !FailedSince(s, s.closing.began) ==>
              s.file.Whole? && s.closing.began <= s.file.store < |s.history|
  {
    InvInit(file);
    RunKeepsInv(Init(file), steps, s);
  }

  /** An update that runs beside Close can be lost: stored after the flush took its snapshot, it finds the
      write loop gone. Memory ends non-empty, no save failed, and the file holds the update before it. */
  lemma CloseMayMissAnUpdate() returns (steps: seq<Step>, s: State)
    ensures Reaches(Init(Absent), steps, s) && s.closing.Closed? && s.closing.hadData && s.failed == None
    ensures s.Shaped() && s.Memory() == Content(["m"], "") && s.file == Whole(1)
    ensures |s.history| > 1 && s.history[1] == Content(["n"], "")
  {
    var s0 := Init(Absent);
    s, steps := Append(s0, [], s0, StoreNodes(["n"]));
    s, steps := Append(s0, steps, s, CloseBegin);
    assert s.savers == map[Closer := Waiting];
    var writing, saving := SaveStarts(s, Closer);
    ReachesTransitive(s0, steps, s, saving, writing);
    s, steps := Append(s0, steps + saving, writing, StoreNodes(["m"]));
    var m := s;
    s, saving := SaveEnds(m, Closer, 1);
    ReachesTransitive(s0, steps, m, saving, s);
    s, steps := MissedUpdateEnds(s0, steps + saving, s);
  }

  lemma MissedUpdateEnds(s0: State, xs: seq<Step>, m: State) returns (s: State, steps: seq<Step>)
    requires Reaches(s0, xs, m) && m.Shaped() && m.closing.Flushing? && m.posting > 0 && m.savers == map[]
    ensures Reaches(s0, steps, s)
    ensures s == m.(posting := m.posting - 1, token := true, closing := Closed(m.closing.began, m.closing.hadData))
  {
    s, steps := Append(s0, xs, m, Notify);
    s, steps := Append(s0, steps, s, CloseFlushed);
    s, steps := Append(s0, steps, s, LoopExits);
  }

  /** With empty memory the flush is skipped, and the loop may exit before taking the last notification. */
  lemma CloseMayKeepOlderDataForEmptyMemory() returns (steps: seq<Step>, s: State)
    ensures Reaches(Init(Absent), steps, s) && s.closing.Closed?
    ensures s.Shaped() && s.Memory() == Content([], "") && s.failed == None && s.file == Whole(1)
    ensures |s.history| > 1 && s.history[1] == Content(["n"], "")
  {
    var s0 := Init(Absent);
    s, steps := SaveOf(s0, ["n"]);
    s, steps := Append(s0, steps, s, StoreNodes([]));
    s, steps := Append(s0, steps, s, Notify);
    s, steps := Append(s0, steps, s, CloseBegin);
    s, steps := Append(s0, steps, s, CloseFlushed);
    s, steps := Append(s0, steps, s, LoopExits);
  }

  /** A load is not an update: read before an update and stored after it, it puts memory back to the older
      content, requests no save, and leaves memory and file different until something else is stored or saved. */
  lemma LoadMayUndoAnUpdate(c: Content) returns (steps: seq<Step>, s: State)
    requires c.nodes != ["n"] && |c.nodes| > 0
    ensures Reaches(Init(Earlier(c)), steps, s) && s.Quiescent() && s.failed == None
    ensures s.Shaped() && s.Memory() == c && s.file == Whole(1)
    ensures |s.history| > 1 && s.history[1] != c
  {
    var s0 := Init(Earlier(c));
    var s1, saving;
    s1, steps := Append(s0, [], s0, LoadRead(0, c));
    s, saving := SaveOf(s1, ["n"]);
    ReachesTransitive(s0, steps, s1, saving, s);
    s, steps := Append(s0, steps + saving, s, LoadStore(0));
    assert s.loaders == map[];
  }

  /** An update between the two steps of a load need not do that: while its notification is pending, the save
      it brings about writes the loaded content. */
  lemma OverlappedLoadMayBeSaved(c: Content) returns (steps: seq<Step>, s: State)
    requires |c.nodes| > 0
    ensures Reaches(Init(Earlier(c)), steps, s) && s.Quiescent() && s.failed == None
    ensures [LoadRead(0, c), StoreNodes(["n"]), LoadStore(0)] <= steps
    ensures s.Shaped() && s.Memory() == c && s.file == Whole(s.Latest())
  {
    var s0 := Init(Earlier(c));
    s, steps := Append(s0, [], s0, LoadRead(0, c));
    s, steps := Append(s0, steps, s, StoreNodes(["n"]));
    s, steps := Append(s0, steps, s, LoadStore(0));
    assert s.loaders == map[] && s.history == [Content([], ""), Content(["n"], ""), c];
    s, steps := Append(s0, steps, s, Notify);
    s, steps := Append(s0, steps, s, LoopTake);
    assert s.savers == map[Loop := Waiting];
    var served := s;
    var saving;
    s, saving := SaveSucceeds(served, Loop);
    ReachesTransitive(s0, steps, served, saving, s);
    steps := steps + saving;
  }

  /** And a load nothing comes between can leave them different: a save that took its snapshot before the load
      renames it afterwards. */
  lemma LateRenameMayFollowALoad(c: Content) returns (steps: seq<Step>, s: State, before: seq<Step>, after: seq<Step>)
    requires c.nodes != ["n"] && |c.nodes| > 0
    ensures Reaches(Init(Earlier(c)), steps, s) && s.Quiescent() && s.failed == None
    ensures steps == before + [LoadRead(0, c), LoadStore(0)] + after
    ensures s.Shaped() && s.Memory() == c && s.file == Whole(1)
    ensures |s.history| > 1 && s.history[1] != c
  {
    var s0 := Init(Earlier(c));
    var served, serving := NotificationServed(s0, ["n"]);
    var writing, saving := SaveStarts(served, Loop);
    ReachesTransitive(s0, serving, served, saving, writing);
    before := serving + saving;
    var read, xs := Append(s0, before, writing, LoadRead(0, c));
    var loaded, ys := Append(s0, xs, read, LoadStore(0));
    assert loaded.loaders == map[] && ys == before + [LoadRead(0, c), LoadStore(0)];
    s, after := SaveEnds(loaded, Loop, 1);
    ReachesTransitive(s0, ys, loaded, after, s);
    steps := ys + after;
  }

  lemma {:induction false} ReachesTransitive(a: State, xs: seq<Step>, b: State, ys: seq<Step>, c: State)
    requires Reaches(a, xs, b) && Reaches(b, ys, c)
    ensures Reaches(a, xs + ys, c)
    decreases |xs|
  {
    if xs == [] {
      assert xs + ys == ys;
    } else {
      assert (xs + ys)[1..] == xs[1..] + ys;
      ReachesTransitive(Next(a, xs[0]), xs[1..], b, ys, c);
    }
  }

  lemma {:induction false} Append(a: State, xs: seq<Step>, b: State, e: Step) returns (c: State, steps: seq<Step>)
    requires Reaches(a, xs, b) && b.Shaped() && Enabled(b, e)
    ensures c == Next(b, e) && steps == xs + [e] && Reaches(a, steps, c)
    decreases |xs|
  {
    c, steps := Next(b, e), xs + [e];
    if xs == [] {
      assert steps == [e] && steps[1..] == [];
    } else {
      var last, rest := Append(Next(a, xs[0]), xs[1..], b, e);
      assert steps[1..] == rest;
    }
  }

  /** An undisturbed save up to the point where its temporary file is being written. */
  lemma SaveStarts(m0: State, id: SaverId) returns (m: State, steps: seq<Step>)
    requires m0.Shaped() && m0.savers == map[id := Waiting]
    ensures Reaches(m0, steps, m)
    ensures m == m0.(tmp := Partial(m0.Latest()), savers := map[id := Writing(m0.Latest())])
  {
    m, steps := SnapshotTaken(m0, id);
    m, steps := Append(m0, steps, m, OpenTmp(id));
    assert m.savers == map[id := Writing(m0.Latest())];
  }

  lemma SnapshotTaken(m0: State, id: SaverId) returns (m: State, steps: seq<Step>)
    requires m0.Shaped() && m0.savers == map[id := Waiting]
    ensures Reaches(m0, steps, m) && m == m0.(savers := map[id := Taken(m0.Latest())])
  {
    m, steps := Append(m0, [], m0, Lock(id));
    assert m.savers == map[id := Locked];
    m, steps := Append(m0, steps, m, TakeSnapshot(id));
    assert m.savers == map[id := Taken(m0.Latest())];
  }

  /** An undisturbed save. */
  lemma SaveSucceeds(m0: State, id: SaverId) returns (m: State, steps: seq<Step>)
    requires m0.Shaped() && m0.savers == map[id := Waiting]
    ensures Reaches(m0, steps, m)
    ensures m == m0.(file := Whole(m0.Latest()), tmp := Absent, savers := map[])
  {
    var writing, ending;
    writing, steps := SaveStarts(m0, id);
    m, ending := SaveEnds(writing, id, m0.Latest());
    ReachesTransitive(m0, steps, writing, ending, m);
    steps := steps + ending;
  }

  lemma SaveEnds(m0: State, id: SaverId, k: nat) returns (m: State, steps: seq<Step>)
    requires m0.Shaped() && m0.savers == map[id := Writing(k)]
    ensures Reaches(m0, steps, m)
    ensures m == m0.(file := Whole(k), tmp := Absent, savers := map[])
  {
    m, steps := Append(m0, [], m0, FinishTmp(id));
    assert m.savers == map[id := Written(k)];
    m, steps := Append(m0, steps, m, Rename(id));
    assert m.savers == map[];
  }

  /** What a save that reports an error leaves. */
  lemma SaveGivesUp(m0: State, id: SaverId) returns (m: State, steps: seq<Step>)
    requires m0.Shaped() && m0.savers == map[id := Waiting]
    ensures Reaches(m0, steps, m)
    ensures m == m0.(tmp := Partial(m0.Latest()), savers := map[], failed := NewestFailure(m0.failed, m0.Latest()))
  {
    m, steps := SaveStarts(m0, id);
    m, steps := Append(m0, steps, m, SaveFails(id));
    assert m.savers == map[];
  }

  lemma NotificationServed(s: State, nodes: seq<NodeInfo>) returns (t: State, steps: seq<Step>)
    requires s.Shaped() && s.Idle() && s.closing.NotClosed?
    ensures Reaches(s, steps, t)
    ensures t == s.(history := s.history + [s.Memory().(nodes := nodes)], savers := map[Loop := Waiting])
  {
    t, steps := Append(s, [], s, StoreNodes(nodes));
    t, steps := Append(s, steps, t, Notify);
    t, steps := Append(s, steps, t, LoopTake);
    assert t.savers == map[Loop := Waiting];
  }

  /** One update carried through to the file without interference. */
  lemma SaveOf(s: State, nodes: seq<NodeInfo>) returns (t: State, steps: seq<Step>)
    requires s.Shaped() && s.Idle() && s.closing.NotClosed?
    ensures Reaches(s, steps, t)
    ensures t == s.(history := s.history + [s.Memory().(nodes := nodes)], file := Whole(|s.history|), tmp := Absent)
  {
    var served, saving;
    served, steps := NotificationServed(s, nodes);
    t, saving := SaveSucceeds(served, Loop);
    ReachesTransitive(s, steps, served, saving, t);
    steps := steps + saving;
  }
}
