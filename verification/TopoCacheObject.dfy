/** The cache object itself. Each method is an uninterrupted stretch of a run of the state machine: besides
    what it does to memory and disk, it names the steps it takes. */
module TopoCacheObject {
  import opened Common
  import opened TopoCacheModel

  datatype DiskFile = Missing | Cut | Complete(content: Content)

  /** The bytes behind a file of the model. */
  function Disk(f: File, history: seq<Content>): DiskFile
    requires f.Whole? ==> f.store < |history|
  {
    match f
    case Absent => Missing
    case Earlier(c) => Complete(c)
    case Partial(_) => Cut
    case Whole(k) => Complete(history[k])
  }

  /** What an undisturbed save leaves. */
  function SavedState(m: State, failing: bool): State
    requires m.Shaped()
  {
    if failing then m.(tmp := Partial(m.Latest()), savers := map[], failed := NewestFailure(m.failed, m.Latest()))
    else m.(file := Whole(m.Latest()), tmp := Absent, savers := map[])
  }

  lemma SaveRun(m0: State, id: SaverId, failing: bool) returns (steps: seq<Step>)
    requires m0.Shaped() && m0.savers == map[id := Waiting]
    ensures Reaches(m0, steps, SavedState(m0, failing))
  {
    var m;
    if failing {
      m, steps := SaveGivesUp(m0, id);
    } else {
      m, steps := SaveSucceeds(m0, id);
    }
  }

  lemma StepThenRun(a: State, e: Step, xs: seq<Step>, b: State)
    requires a.Shaped() && Enabled(a, e) && Reaches(Next(a, e), xs, b)
    ensures Reaches(a, [e] + xs, b)
  {
    assert ([e] + xs)[1..] == xs;
  }

  lemma ServeRun(m0: State, failing: bool) returns (m: State, steps: seq<Step>)
    requires Inv(m0) && m0.token && m0.savers == map[] && m0.closing.NotClosed?
    ensures Inv(m) && Reaches(m0, steps, m) && m == SavedState(m0.(token := false), failing)
  {
    var m1 := Next(m0, LoopTake);
    assert m1.savers == map[Loop := Waiting];
    var saving := SaveRun(m1, Loop, failing);
    m, steps := SavedState(m1, failing), [LoopTake] + saving;
    StepThenRun(m0, LoopTake, saving, m);
    RunKeepsInv(m0, steps, m);
  }

  /** What Close leaves when nothing runs beside it. */
  function ClosedState(m: State, failing: bool): State
    requires m.Shaped()
  {
    var flushed := if m.Memory().HasData() then SavedState(m, failing) else m;
    flushed.(closing := Closed(m.Latest(), m.Memory().HasData()))
  }

  lemma FlushRun(m1: State, hasData: bool, failing: bool) returns (m: State, steps: seq<Step>)
    requires m1.Shaped() && m1.savers == if hasData then map[Closer := Waiting] else map[]
    ensures Reaches(m1, steps, m) && m == if hasData then SavedState(m1, failing) else m1
  {
    m, steps := m1, [];
    if hasData {
      steps := SaveRun(m1, Closer, failing);
      m := SavedState(m1, failing);
    }
  }

  lemma LoopEnds(m: State) returns (n: State, steps: seq<Step>)
    requires m.Shaped() && m.closing.Flushing? && m.savers == map[]
    ensures Reaches(m, steps, n) && n == m.(closing := Closed(m.closing.began, m.closing.hadData))
  {
    n, steps := Append(m, [], m, CloseFlushed);
    n, steps := Append(m, steps, n, LoopExits);
  }

  lemma CloseRun(m0: State, failing: bool) returns (m: State, steps: seq<Step>)
    requires Inv(m0) && m0.savers == map[] && m0.closing.NotClosed?
    ensures Inv(m) && Reaches(m0, steps, m) && m == ClosedState(m0, failing)
  {
    var hasData, m1 := m0.Memory().HasData(), Next(m0, CloseBegin);
    assert m1.savers == if hasData then map[Closer := Waiting] else map[];
    var m2, flushing := FlushRun(m1, hasData, failing);
    var n, ending := LoopEnds(m2);
    ReachesTransitive(m1, flushing, m2, ending, n);
    StepThenRun(m0, CloseBegin, flushing + ending, n);
    m, steps := n, [CloseBegin] + (flushing + ending);
    RunKeepsInv(m0, steps, m);
  }

  lemma LoadRun(m0: State, c: Content) returns (m: State, steps: seq<Step>)
    requires Inv(m0) && m0.loaders == map[] && Holds(m0.file, m0.history, c) && |c.nodes| > 0
    ensures Inv(m) && steps == [LoadRead(0, c), LoadStore(0)] && Reaches(m0, steps, m)
    ensures m == m0.(history := m0.history + [c], loads := m0.loads[|m0.history| := Reading(m0.file, c)])
  {
    m, steps := Append(m0, [], m0, LoadRead(0, c));
    m, steps := Append(m0, steps, m, LoadStore(0));
    assert m.loaders == map[];
    RunKeepsInv(m0, steps, m);
  }

  /** What the state machine says about a cache at rest between two calls. */
  ghost predicate Tracks(m: State, memory: Content, writeCh: bool, done: bool, file: DiskFile) {
    && Inv(m) && m.savers == map[] && m.posting == 0 && m.loaders == map[]
    && m.Memory() == memory
    && writeCh == m.token
    && done == m.closing.Closed? && (!done ==> m.closing.NotClosed?)
    && file == Disk(m.file, m.history)
  }

  lemma SavedTracks(m0: State, c: Content, writeCh: bool, file: DiskFile, m: State, failing: bool)
    requires Tracks(m0, c, writeCh, false, file) && m == SavedState(m0.(token := false), failing) && Inv(m)
    ensures Tracks(m, c, false, false, if failing then file else Complete(c))
  {
  }

  lemma ClosedTracks(m0: State, c: Content, writeCh: bool, file: DiskFile, m: State, failing: bool)
    requires Tracks(m0, c, writeCh, false, file) && m == ClosedState(m0, failing) && Inv(m)
    ensures Tracks(m, c, writeCh, true, if c.HasData() && !failing then Complete(c) else file)
  {
  }

  /** One store with its notification. */
  lemma StoreRun(m0: State, c: Content, writeCh: bool, done: bool, file: DiskFile, e: Step) returns (m: State)
    requires Tracks(m0, c, writeCh, done, file) && (e.StoreNodes? || e.StoreSecret?)
    ensures Reaches(m0, [e, Notify], m)
    ensures Tracks(m, if e.StoreNodes? then c.(nodes := e.nodes) else c.(secret := e.secret), true, done, file)
  {
    var steps;
    m, steps := Append(m0, [], m0, e);
    m, steps := Append(m0, steps, m, Notify);
    RunKeepsInv(m0, steps, m);
  }

  datatype Outcome = Done | WriteFailed | FileUnusable

  class TopoCache {
    var nodes: seq<NodeInfo>
    var secret: string
    var writeCh: bool
    var done: bool
    var file: DiskFile
    var tmp: DiskFile
    ghost var model: State

    ghost predicate Valid()
      reads this
    {
      Tracks(model, Content(nodes, secret), writeCh, done, file)
    }

    constructor (existing: DiskFile)
      requires !existing.Cut?
      ensures Valid() && nodes == [] && secret == "" && file == existing && !done && !writeCh
    {
      nodes, secret, writeCh, done, file, tmp := [], "", false, false, existing, Missing;
      model := Init(if existing.Complete? then Earlier(existing.content) else Absent);
    }

    method Update(newNodes: seq<NodeInfo>)
      requires Valid()
      modifies this
      ensures Valid() && done == old(done)
      ensures Reaches(old(model), [StoreNodes(newNodes), Notify], model)
      ensures nodes == newNodes && secret == old(secret) && writeCh && file == old(file)
    {
      model := StoreRun(model, Content(nodes, secret), writeCh, done, file, StoreNodes(newNodes));
      nodes := newNodes;
      RequestSave();
    }

    method SetSecret(secretHex: string)
      requires Valid()
      modifies this
      ensures Valid() && done == old(done)
      ensures Reaches(old(model), [StoreSecret(secretHex), Notify], model)
      ensures secret == secretHex && nodes == old(nodes) && writeCh && file == old(file)
    {
      model := StoreRun(model, Content(nodes, secret), writeCh, done, file, StoreSecret(secretHex));
      secret := secretHex;
      RequestSave();
    }

    /** The notification channel holds one entry; a second request is absorbed. */
    method RequestSave()
      modifies `writeCh
      ensures writeCh
    {
      if !writeCh {
        writeCh := true;
      }
    }

    /** Snapshot, temporary file, rename. On an error the file keeps its previous content. */
    method SaveToFile(failing: bool) returns (r: Outcome)
      modifies `file, `tmp
      ensures r.Done? <==> !failing
      ensures file == if failing then old(file) else Complete(Content(nodes, secret))
    {
      var data := Content(nodes, secret);
      tmp := Cut;
      if failing {
        return WriteFailed;
      }
      tmp := Complete(data);
      file, tmp := tmp, Missing;
      r := Done;
    }

    /** One turn of the write loop. */
    method ServeNotification(failing: bool) returns (ghost steps: seq<Step>)
      requires Valid() && writeCh && !done
      modifies this
      ensures Valid() && !writeCh && !done && Reaches(old(model), steps, model)
      ensures nodes == old(nodes) && secret == old(secret)
      ensures file == if failing then old(file) else Complete(Content(nodes, secret))
    {
      ghost var m0 := model;
      model, steps := ServeRun(m0, failing);
      SavedTracks(m0, Content(nodes, secret), writeCh, file, model, failing);
      writeCh := false;
      var r := SaveToFile(failing);
    }

    /** A file that cannot be read, or that lists no nodes, leaves memory untouched. */
    method LoadFromFile() returns (r: Outcome, ghost steps: seq<Step>)
      requires Valid()
      modifies this
      ensures Valid() && done == old(done) && file == old(file) && writeCh == old(writeCh)
      ensures r.Done? <==> file.Complete? && |file.content.nodes| > 0
      ensures Reaches(old(model), steps, model)
      ensures if r.Done? then Content(nodes, secret) == file.content && steps == [LoadRead(0, file.content), LoadStore(0)]
              else nodes == old(nodes) && secret == old(secret) && steps == []
    {
      var read := file;
      if !read.Complete? || |read.content.nodes| == 0 {
        return FileUnusable, [];
      }
      nodes, secret := read.content.nodes, read.content.secret;
      model, steps := LoadRun(model, read.content);
      r := Done;
    }

    /** Flushes memory unless it is empty, then ends the write loop; a second call does nothing. */
    method Close(failing: bool) returns (ghost steps: seq<Step>)
      requires Valid()
      modifies this
      ensures Valid() && done && Reaches(old(model), steps, model)
      ensures nodes == old(nodes) && secret == old(secret)
      ensures old(done) ==> file == old(file) && steps == []
      ensures !old(done) ==> file == if (nodes != [] || secret != "") && !failing then Complete(Content(nodes, secret)) else old(file)
    {
      steps := [];
      if done {
        return;
      }
      ghost var m0 := model;
      model, steps := CloseRun(m0, failing);
      ClosedTracks(m0, Content(nodes, secret), writeCh, file, model, failing);
      if |nodes| > 0 || secret != "" {
        var r := SaveToFile(failing);
      }
      done := true;
    }
  }
}
