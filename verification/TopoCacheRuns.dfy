/** What the file holds, told from the steps of a run alone (src/edge/topo_cache.go). */
module TopoCacheRuns {
  import opened Common
  import opened TopoCacheModel

  /** The steps that change memory. */
  predicate IsStore(e: Step) {
    e.StoreNodes? || e.StoreSecret? || e.LoadStore?
  }

  function Stores(steps: seq<Step>): nat {
    if steps == [] then 0
    else Stores(steps[..|steps| - 1]) + if IsStore(steps[|steps| - 1]) then 1 else 0
  }

  predicate EndsSave(e: Step, i: SaverId) {
    e == TakeSnapshot(i) || e == Rename(i) || e == SaveFails(i)
  }

  /** The snapshot taken at `t` by `i` is still being written. */
  ghost predicate InFlight(steps: seq<Step>, i: SaverId, t: int) {
    0 <= t < |steps| && steps[t] == TakeSnapshot(i) && forall u :: t < u < |steps| ==> !EndsSave(steps[u], i)
  }

  /** The snapshot taken at `t` was renamed into place at `r`. */
  ghost predicate Saved(steps: seq<Step>, t: int, r: int) {
    && 0 <= t < r < |steps| && steps[t].TakeSnapshot? && steps[r] == Rename(steps[t].s)
    && forall u :: t < u < r ==> !EndsSave(steps[u], steps[t].s)
  }

  ghost predicate NoStoreFrom(steps: seq<Step>, t: int) {
    0 <= t && forall u :: t <= u < |steps| ==> !IsStore(steps[u])
  }

  lemma StoresGrow(steps: seq<Step>, e: Step)
    ensures Stores(steps + [e]) == Stores(steps) + if IsStore(e) then 1 else 0
  {
    assert (steps + [e])[..|steps|] == steps;
  }

  lemma {:induction false} StoresUpTo(steps: seq<Step>, t: int)
    requires 0 <= t <= |steps|
    ensures Stores(steps[..t]) <= Stores(steps)
    ensures Stores(steps[..t]) == Stores(steps) <==> NoStoreFrom(steps, t)
  {
    if t < |steps| {
      var n := |steps| - 1;
      assert steps[..n][..t] == steps[..t] && steps == steps[..n] + [steps[n]];
      StoresUpTo(steps[..n], t);
    } else {
      assert steps[..t] == steps;
    }
  }

  // ---------- Snapshots and the file, by position ----------

  ghost predicate SnapshotPlaced(steps: seq<Step>, i: SaverId, k: nat) {
    exists t :: InFlight(steps, i, t) && k == Stores(steps[..t])
  }

  ghost predicate SnapshotsPlaced(steps: seq<Step>, s: State) {
    forall i :: i in s.savers && s.savers[i].HasSnapshot() ==>
      SnapshotPlaced(steps, i, s.savers[i].snapshot)
  }

  ghost predicate FileComesFromASave(steps: seq<Step>, s: State) {
    s.file.Whole? ==> exists t, r :: Saved(steps, t, r) && s.file.store == Stores(steps[..t])
  }

  ghost predicate FileIsNewest(steps: seq<Step>, s: State) {
    forall t, r :: Saved(steps, t, r) ==> s.file.Whole? && Stores(steps[..t]) <= s.file.store
  }

  ghost predicate Placed(steps: seq<Step>, s: State) {
    && s.Latest() == Stores(steps)
    && SnapshotsPlaced(steps, s)
    && FileComesFromASave(steps, s)
    && FileIsNewest(steps, s)
  }

  lemma LongerRun(steps: seq<Step>, e: Step)
    ensures forall t :: 0 <= t <= |steps| ==> (steps + [e])[..t] == steps[..t]
    ensures forall t, r :: r < |steps| ==> (Saved(steps + [e], t, r) <==> Saved(steps, t, r))
    ensures forall i, t :: 0 <= t < |steps| && !EndsSave(e, i) ==> (InFlight(steps + [e], i, t) <==> InFlight(steps, i, t))
  {
    var longer := steps + [e];
    assert forall u :: 0 <= u < |steps| ==> longer[u] == steps[u];
    forall i, t | 0 <= t < |steps| && !EndsSave(e, i) ensures InFlight(longer, i, t) <==> InFlight(steps, i, t) {
      assert InFlight(longer, i, t) ==> forall u :: t < u < |steps| ==> longer[u] == steps[u];
    }
  }

  lemma OneInFlight(steps: seq<Step>, i: SaverId, t: int, u: int)
    requires InFlight(steps, i, t) && InFlight(steps, i, u)
    ensures t == u
  {
  }

  lemma SnapshotsStayPlaced(steps: seq<Step>, s: State, e: Step)
    requires Inv(s) && Enabled(s, e) && s.Latest() == Stores(steps) && SnapshotsPlaced(steps, s)
    ensures SnapshotsPlaced(steps + [e], Next(s, e))
  {
    var n := Next(s, e);
    forall i | i in n.savers && n.savers[i].HasSnapshot()
      ensures SnapshotPlaced(steps + [e], i, n.savers[i].snapshot)
    {
      if e == TakeSnapshot(i) {
        assert (steps + [e])[..|steps|] == steps && InFlight(steps + [e], i, |steps|);
      } else {
        SnapshotUnmoved(s, e, i);
        SnapshotStaysPlaced(steps, e, i, n.savers[i].snapshot);
      }
    }
  }

  lemma SnapshotUnmoved(s: State, e: Step, i: SaverId)
    requires s.Shaped() && Enabled(s, e) && i in Next(s, e).savers && Next(s, e).savers[i].HasSnapshot() && e != TakeSnapshot(i)
    ensures i in s.savers && s.savers[i].HasSnapshot() && s.savers[i].snapshot == Next(s, e).savers[i].snapshot
    ensures !EndsSave(e, i)
  {
  }

  lemma SnapshotStaysPlaced(steps: seq<Step>, e: Step, i: SaverId, k: nat)
    requires SnapshotPlaced(steps, i, k) && !EndsSave(e, i)
    ensures SnapshotPlaced(steps + [e], i, k)
  {
    LongerRun(steps, e);
    var p :| InFlight(steps, i, p) && k == Stores(steps[..p]);
    assert InFlight(steps + [e], i, p) && (steps + [e])[..p] == steps[..p];
  }

  /** A rename puts the snapshot in flight into the file. */
  lemma RenameIsPlaced(steps: seq<Step>, s: State, i: SaverId) returns (t: int)
    requires Inv(s) && Enabled(s, Rename(i)) && SnapshotsPlaced(steps, s)
    ensures InFlight(steps, i, t) && Next(s, Rename(i)).file == Whole(Stores(steps[..t]))
    ensures Saved(steps + [Rename(i)], t, |steps|)
    ensures forall u :: Saved(steps + [Rename(i)], u, |steps|) ==> u == t
  {
    t :| InFlight(steps, i, t) && s.savers[i].snapshot == Stores(steps[..t]);
    var longer := steps + [Rename(i)];
    assert forall u :: 0 <= u < |steps| ==> longer[u] == steps[u];
    forall u | Saved(longer, u, |steps|) ensures u == t {
      assert InFlight(steps, i, u);
    }
  }

  lemma RenameKeepsFilePlaced(steps: seq<Step>, s: State, i: SaverId)
    requires Inv(s) && Enabled(s, Rename(i)) && Placed(steps, s)
    ensures FileComesFromASave(steps + [Rename(i)], Next(s, Rename(i))) && FileIsNewest(steps + [Rename(i)], Next(s, Rename(i)))
  {
    var e := Rename(i);
    var longer, n := steps + [e], Next(s, e);
    LongerRun(steps, e);
    var t := RenameIsPlaced(steps, s, i);
    assert longer[..t] == steps[..t];
    forall u, r | Saved(longer, u, r) ensures Stores(longer[..u]) <= n.file.store {
      if r < |steps| {
        assert Saved(steps, u, r) && longer[..u] == steps[..u];
      }
    }
  }

  lemma OtherStepKeepsFilePlaced(steps: seq<Step>, s: State, e: Step)
    requires Inv(s) && Enabled(s, e) && Placed(steps, s) && !e.Rename?
    ensures FileComesFromASave(steps + [e], Next(s, e)) && FileIsNewest(steps + [e], Next(s, e))
  {
    var longer, n := steps + [e], Next(s, e);
    LongerRun(steps, e);
    assert n.file == s.file;
    if s.file.Whole? {
      var t, r :| Saved(steps, t, r) && s.file.store == Stores(steps[..t]);
      assert Saved(longer, t, r) && longer[..t] == steps[..t];
    }
    forall t, r | Saved(longer, t, r) ensures n.file.Whole? && Stores(longer[..t]) <= n.file.store {
      assert Saved(steps, t, r) && longer[..t] == steps[..t];
    }
  }

  lemma StepKeepsPlaced(steps: seq<Step>, s: State, e: Step)
    requires Inv(s) && Enabled(s, e) && Placed(steps, s)
    ensures Placed(steps + [e], Next(s, e))
  {
    StoresGrow(steps, e);
    SnapshotsStayPlaced(steps, s, e);
    if e.Rename? {
      RenameKeepsFilePlaced(steps, s, e.s);
    } else {
      OtherStepKeepsFilePlaced(steps, s, e);
    }
  }

  lemma {:induction false} RunKeepsPlaced(before: seq<Step>, from: State, steps: seq<Step>, s: State)
    requires Inv(from) && Placed(before, from) && Reaches(from, steps, s)
    ensures Inv(s) && Placed(before + steps, s)
    decreases |steps|
  {
    if steps == [] {
      assert before + steps == before;
    } else {
      StepKeepsInv(from, steps[0]);
      StepKeepsPlaced(before, from, steps[0]);
      SeamMoves(before, steps);
      RunKeepsPlaced(before + [steps[0]], Next(from, steps[0]), steps[1..], s);
    }
  }

  lemma RunIsPlaced(file: File, steps: seq<Step>, s: State)
    requires FromBefore(file) && Reaches(Init(file), steps, s)
    ensures Inv(s) && Placed(steps, s)
  {
    InvInit(file);
    assert [] + steps == steps;
    RunKeepsPlaced([], Init(file), steps, s);
  }

  // ---------- When file and memory are equal ----------

  /** Some save whose snapshot followed the last store has been renamed into place. */
  ghost predicate LastStoreSaved(steps: seq<Step>) {
    exists t, r :: Saved(steps, t, r) && NoStoreFrom(steps, t)
  }

  /** Exactly when the file holds the latest store, over every run: updates, loads, direct saves and Close in
      any interleaving. */
  lemma FileHoldsMemoryExactly(file: File, steps: seq<Step>, s: State)
    requires FromBefore(file) && Reaches(Init(file), steps, s)
    ensures s.Shaped()
    ensures s.file == Whole(s.Latest()) <==> LastStoreSaved(steps)
  {
    RunIsPlaced(file, steps, s);
    if s.file == Whole(s.Latest()) {
      var t, r :| Saved(steps, t, r) && s.file.store == Stores(steps[..t]);
      StoresUpTo(steps, t);
    }
    if LastStoreSaved(steps) {
      var t, r :| Saved(steps, t, r) && NoStoreFrom(steps, t);
      StoresUpTo(steps, t);
    }
  }

  // ---------- Close ----------

  /** The flush of Close took its snapshot at `c`, of a store no older than `began`. */
  ghost predicate FlushAt(steps: seq<Step>, began: nat, c: int) {
    0 <= c < |steps| && steps[c] == TakeSnapshot(Closer) && began <= Stores(steps[..c])
  }

  ghost predicate FlushEnded(steps: seq<Step>, c: int) {
    (exists r :: Saved(steps, c, r)) || SaveFails(Closer) in steps
  }

  ghost predicate FlushPlaced(steps: seq<Step>, s: State) {
    || s.closing.NotClosed? || !s.closing.hadData || BeforeSnapshot(s, Closer)
    || exists c :: FlushAt(steps, s.closing.began, c)
         && if Closer in s.savers then InFlight(steps, Closer, c) else FlushEnded(steps, c)
  }

  lemma FlushAtLonger(steps: seq<Step>, e: Step, began: nat, c: int)
    requires FlushAt(steps, began, c)
    ensures FlushAt(steps + [e], began, c)
    ensures FlushEnded(steps, c) ==> FlushEnded(steps + [e], c)
    ensures InFlight(steps, Closer, c) && !EndsSave(e, Closer) ==> InFlight(steps + [e], Closer, c)
  {
    LongerRun(steps, e);
    assert (steps + [e])[..c] == steps[..c];
    if exists r :: Saved(steps, c, r) {
      var r :| Saved(steps, c, r);
      assert Saved(steps + [e], c, r);
    }
  }

  lemma FlushEnds(steps: seq<Step>, s: State, e: Step, c: int)
    requires Inv(s) && Enabled(s, e) && SnapshotsPlaced(steps, s) && (e == Rename(Closer) || e == SaveFails(Closer))
    requires InFlight(steps, Closer, c)
    ensures FlushEnded(steps + [e], c) && Closer !in Next(s, e).savers
  {
    if e == Rename(Closer) {
      var t := RenameIsPlaced(steps, s, Closer);
      OneInFlight(steps, Closer, t, c);
    } else {
      assert (steps + [e])[|steps|] == e;
    }
  }

  lemma StepKeepsFlushPlaced(steps: seq<Step>, s: State, e: Step)
    requires Inv(s) && Enabled(s, e) && Placed(steps, s) && FlushPlaced(steps, s)
    ensures FlushPlaced(steps + [e], Next(s, e))
  {
    var n := Next(s, e);
    if s.closing.NotClosed? || !s.closing.hadData {
    } else if BeforeSnapshot(s, Closer) {
      if e == TakeSnapshot(Closer) {
        assert (steps + [e])[..|steps|] == steps;
        assert FlushAt(steps + [e], n.closing.began, |steps|) && InFlight(steps + [e], Closer, |steps|);
      }
    } else {
      FlushStaysPlaced(steps, s, e);
    }
  }

  lemma FlushStaysPlaced(steps: seq<Step>, s: State, e: Step)
    requires Inv(s) && Enabled(s, e) && SnapshotsPlaced(steps, s)
    requires !s.closing.NotClosed? && s.closing.hadData && !BeforeSnapshot(s, Closer) && FlushPlaced(steps, s)
    ensures FlushPlaced(steps + [e], Next(s, e))
  {
    var n := Next(s, e);
    var c :| FlushAt(steps, s.closing.began, c) && if Closer in s.savers then InFlight(steps, Closer, c) else FlushEnded(steps, c);
    FlushAtLonger(steps, e, s.closing.began, c);
    if e == Rename(Closer) || e == SaveFails(Closer) {
      FlushEnds(steps, s, e, c);
    } else {
      assert n.closing.began == s.closing.began && (Closer in n.savers <==> Closer in s.savers);
    }
  }

  lemma {:induction false} RunKeepsFlushPlaced(before: seq<Step>, from: State, steps: seq<Step>, s: State)
    requires Inv(from) && Placed(before, from) && FlushPlaced(before, from) && Reaches(from, steps, s)
    ensures FlushPlaced(before + steps, s)
    decreases |steps|
  {
    if steps == [] {
      assert before + steps == before;
    } else {
      StepKeepsInv(from, steps[0]);
      StepKeepsPlaced(before, from, steps[0]);
      StepKeepsFlushPlaced(before, from, steps[0]);
      SeamMoves(before, steps);
      RunKeepsFlushPlaced(before + [steps[0]], Next(from, steps[0]), steps[1..], s);
    }
  }

  /** Every store from position `c` on was followed by a snapshot that was renamed into place. */
  ghost predicate StoresSavedFrom(steps: seq<Step>, c: int) {
    0 <= c && forall p :: c <= p < |steps| && IsStore(steps[p]) ==> exists t, r :: p < t && Saved(steps, t, r)
  }

  lemma {:induction false} LastStoreFrom(steps: seq<Step>, c: int) returns (p: int)
    requires 0 <= c <= |steps|
    ensures c - 1 <= p < |steps| && NoStoreFrom(steps, p + 1) && (p >= c ==> IsStore(steps[p]))
    decreases |steps| - c
  {
    if c == |steps| {
      p := c - 1;
    } else {
      p := LastStoreFrom(steps, c + 1);
      if p == c && !IsStore(steps[c]) {
        p := c - 1;
      }
    }
  }

  lemma SavedFromFlushExactly(steps: seq<Step>, c: int)
    requires exists r :: Saved(steps, c, r)
    ensures LastStoreSaved(steps) <==> StoresSavedFrom(steps, c)
  {
    if LastStoreSaved(steps) {
      var t, r :| Saved(steps, t, r) && NoStoreFrom(steps, t);
      assert forall p :: 0 <= p < |steps| && IsStore(steps[p]) ==> p < t;
    }
    if StoresSavedFrom(steps, c) {
      var p := LastStoreFrom(steps, c);
      if p >= c {
        var t, r :| p < t && Saved(steps, t, r);
        assert NoStoreFrom(steps, t);
      } else {
        var r :| Saved(steps, c, r);
        assert NoStoreFrom(steps, c);
      }
    }
  }

  /** After Close has returned, with data to flush and no failed flush: the file holds the final memory if
      and only if every update or load that came after the snapshot of the flush was saved by someone else. */
  lemma CloseHoldsFinalMemoryExactly(file: File, steps: seq<Step>, s: State) returns (c: int)
    requires FromBefore(file) && Reaches(Init(file), steps, s)
    requires s.closing.Closed? && s.closing.hadData && SaveFails(Closer) !in steps
    ensures FlushAt(steps, s.closing.began, c) && s.Shaped()
    ensures s.file == Whole(s.Latest()) <==> StoresSavedFrom(steps, c)
    ensures NoStoreFrom(steps, c) ==> s.file == Whole(s.Latest()) && s.history[s.file.store] == s.Memory()
  {
    FlushIsPlaced(file, steps, s);
    c := FlushFinished(steps, s);
    FileHoldsMemoryExactly(file, steps, s);
    SavedFromFlushExactly(steps, c);
    if NoStoreFrom(steps, c) {
      assert StoresSavedFrom(steps, c);
    }
  }

  lemma FlushFinished(steps: seq<Step>, s: State) returns (c: int)
    requires Inv(s) && FlushPlaced(steps, s) && s.closing.Closed? && s.closing.hadData && SaveFails(Closer) !in steps
    ensures FlushAt(steps, s.closing.began, c) && exists r :: Saved(steps, c, r)
  {
    assert Closer !in s.savers;
    c :| FlushAt(steps, s.closing.began, c) && FlushEnded(steps, c);
  }

  lemma FlushIsPlaced(file: File, steps: seq<Step>, s: State)
    requires FromBefore(file) && Reaches(Init(file), steps, s)
    ensures FlushPlaced(steps, s) && Inv(s)
  {
    RunIsPlaced(file, [], Init(file));
    assert [] + steps == steps;
    RunKeepsFlushPlaced([], Init(file), steps, s);
    RunIsPlaced(file, steps, s);
  }

  // ---------- Loads ----------

  /** Every save renamed from position `q` on wrote the very snapshot `f` holds. */
  ghost predicate OnlyRewrites(steps: seq<Step>, q: int, f: File) {
    forall t, r :: Saved(steps, t, r) && r >= q ==> f == Whole(Stores(steps[..t]))
  }

  lemma {:induction false} StateAt(from: State, steps: seq<Step>, s: State, r: nat) returns (m: State)
    requires Reaches(from, steps, s) && r <= |steps|
    ensures Reaches(from, steps[..r], m) && Reaches(m, steps[r..], s)
    decreases |steps|
  {
    if r == 0 {
      m := from;
      assert steps[..0] == [] && steps[0..] == steps;
    } else {
      m := StateAt(Next(from, steps[0]), steps[1..], s, r - 1);
      assert steps[..r][1..] == steps[1..][..r - 1] && steps[1..][r - 1..] == steps[r..];
    }
  }

  lemma SavedPrefix(steps: seq<Step>, t: int, r: int)
    requires Saved(steps, t, r)
    ensures Saved(steps[..r] + [steps[r]], t, |steps[..r]|)
    ensures steps[..r][..t] == steps[..t]
  {
    assert forall u :: 0 <= u < r ==> (steps[..r] + [steps[r]])[u] == steps[u];
  }

  /** A save renamed at `r` in a run from `s1` on put its snapshot into the file then. */
  lemma RenamedSince(before: seq<Step>, s1: State, rest: seq<Step>, s: State, t: int, r: int)
    requires Inv(s1) && Placed(before, s1) && Reaches(s1, rest, s)
    requires Saved(before + rest, t, r) && r >= |before|
    ensures NoOlder(s1.file, Whole(Stores((before + rest)[..t]))) && NoOlder(Whole(Stores((before + rest)[..t])), s.file)
  {
    var all, k := before + rest, r - |before|;
    var m := StateAt(s1, rest, s, k);
    assert before + rest[..k] == all[..r] && rest[k] == all[r];
    RunKeepsPlaced(before, s1, rest[..k], m);
    SavedPrefix(all, t, r);
    var i := all[t].s;
    assert rest[k..][0] == all[r] == Rename(i) && rest[k..][1..] == rest[k + 1..];
    var u := RenameIsPlaced(all[..r], m, i);
    var n := Next(m, Rename(i));
    StepKeepsInv(m, Rename(i));
    FileNeverGoesBack(s1, rest[..k], m);
    FileNeverGoesBack(m, [Rename(i)], n) by { assert [Rename(i)][1..] == []; }
    FileNeverGoesBack(n, rest[k + 1..], s);
  }

  lemma UnchangedMeansRewrites(before: seq<Step>, s1: State, rest: seq<Step>, s: State)
    requires Inv(s1) && Placed(before, s1) && Reaches(s1, rest, s) && s.file == s1.file
    ensures OnlyRewrites(before + rest, |before|, s1.file)
  {
    var all := before + rest;
    forall t, r | Saved(all, t, r) && r >= |before| ensures s1.file == Whole(Stores(all[..t])) {
      RenamedSince(before, s1, rest, s, t, r);
    }
  }

  lemma RewritesMeanUnchanged(before: seq<Step>, s1: State, rest: seq<Step>, s: State)
    requires Inv(s1) && Placed(before, s1) && Reaches(s1, rest, s) && OnlyRewrites(before + rest, |before|, s1.file)
    requires s.file.Whole?
    ensures s.file == s1.file
  {
    var all := before + rest;
    RunKeepsPlaced(before, s1, rest, s);
    FileNeverGoesBack(s1, rest, s);
    var t, r :| Saved(all, t, r) && s.file.store == Stores(all[..t]);
    if r < |before| {
      assert forall u :: 0 <= u < |before| ==> all[u] == before[u];
      assert Saved(before, t, r) && all[..t] == before[..t];
    }
  }

  lemma BothFromBefore(file: File, before: seq<Step>, s1: State, rest: seq<Step>, s: State)
    requires FromBefore(file) && Reaches(Init(file), before, s1) && Reaches(s1, rest, s)
    ensures s.file.Whole? || s.file == s1.file == file
  {
    InvInit(file);
    RunKeepsInv(Init(file), before, s1);
    FileNeverGoesBack(s1, rest, s);
    CrashLeavesACompleteFile(file, before, s1);
    ReachesTransitive(Init(file), before, s1, rest, s);
    CrashLeavesACompleteFile(file, before + rest, s);
  }

  /** The file is still the one seen after `before` if and only if only rewrites of it were renamed since. */
  lemma FileUnchangedExactly(file: File, before: seq<Step>, s1: State, rest: seq<Step>, s: State)
    requires FromBefore(file) && Reaches(Init(file), before, s1) && Reaches(s1, rest, s)
    ensures s.file == s1.file <==> OnlyRewrites(before + rest, |before|, s1.file)
  {
    RunIsPlaced(file, before, s1);
    BothFromBefore(file, before, s1, rest, s);
    if s.file == s1.file {
      UnchangedMeansRewrites(before, s1, rest, s);
    } else if OnlyRewrites(before + rest, |before|, s1.file) {
      RewritesMeanUnchanged(before, s1, rest, s);
    }
  }

  /** The content of the file is the content of memory. */
  predicate FileEqualsMemory(s: State)
    requires s.Shaped()
  {
    Holds(s.file, s.history, s.Memory())
  }

  /** No other store, and no other file than the one read, has the content a load has put into memory. */
  predicate LoadedContentIsUnique(s: State, read: File)
    requires s.Shaped()
  {
    forall k :: 0 <= k < |s.history| - 1 && read != Whole(k) ==> s.history[k] != s.Memory()
  }

  /** Exactly when a load leaves file and memory equal. The load reads in state `s1` and stores in `s2`, and
      memory is not changed afterwards. Then, unless contents coincide by chance, they are equal in `s` if
      and only if nothing but rewrites of the file read was renamed since, or a save that took its snapshot
      after the load was renamed. */
  lemma LoadLeavesThemEqualExactly(file: File, before: seq<Step>, s1: State, id: nat, c: Content, between: seq<Step>, s2: State,
                                   after: seq<Step>, s: State)
    requires FromBefore(file) && Reaches(Init(file), before, s1) && Enabled(s1, LoadRead(id, c))
    requires s1.Shaped() && Reaches(Next(s1, LoadRead(id, c)), between, s2) && LoadStore(id) !in between
    requires s2.Shaped() && Enabled(s2, LoadStore(id)) && Reaches(Next(s2, LoadStore(id)), after, s) && NoStoreFrom(after, 0)
    ensures s.Shaped() && s.Memory() == c
    ensures var steps := before + ([LoadRead(id, c)] + between + ([LoadStore(id)] + after));
            var equal := OnlyRewrites(steps, |before|, s1.file) || LastStoreSaved(steps);
            && (equal ==> FileEqualsMemory(s))
            && (LoadedContentIsUnique(s, s1.file) ==> (FileEqualsMemory(s) <==> equal))
  {
    var rest := [LoadRead(id, c)] + between + ([LoadStore(id)] + after);
    LoadPhases(s1, id, c, between, s2, after, s) by { RunIsPlaced(file, before, s1); }
    FileUnchangedExactly(file, before, s1, rest, s);
    BothFromBefore(file, before, s1, rest, s);
    ReachesTransitive(Init(file), before, s1, rest, s);
    FileHoldsMemoryExactly(file, before + rest, s);
    LoadedEqualExactly(s, s1.file);
  }

  /** The two steps of a load with what lies around them, as one run. */
  lemma LoadPhases(s1: State, id: nat, c: Content, between: seq<Step>, s2: State, after: seq<Step>, s: State)
    requires Inv(s1) && Enabled(s1, LoadRead(id, c))
    requires Reaches(Next(s1, LoadRead(id, c)), between, s2) && LoadStore(id) !in between
    requires s2.Shaped() && Enabled(s2, LoadStore(id)) && Reaches(Next(s2, LoadStore(id)), after, s) && NoStoreFrom(after, 0)
    ensures Reaches(s1, [LoadRead(id, c)] + between + ([LoadStore(id)] + after), s)
    ensures Inv(s) && s.Memory() == c && s.Latest() in s.loads && s.loads[s.Latest()] == Reading(s1.file, c)
  {
    var read, store := [LoadRead(id, c)] + between, [LoadStore(id)] + after;
    assert read[1..] == between && store[1..] == after;
    ReachesTransitive(s1, read, s2, store, s);
    RunKeepsInv(s1, read + store, s);
    ReadingIsKept(s1, id, c, between, s2);
    LoadedIsKept(s2, id, after, s);
  }

  lemma LoadedIsKept(s2: State, id: nat, after: seq<Step>, s: State)
    requires s2.Shaped() && Enabled(s2, LoadStore(id)) && Reaches(Next(s2, LoadStore(id)), after, s) && NoStoreFrom(after, 0)
    ensures s.Shaped() && s.Memory() == s2.loaders[id].content
    ensures s.Latest() in s.loads && s.loads[s.Latest()] == s2.loaders[id]
  {
    MemoryIsKept(Next(s2, LoadStore(id)), after, s);
  }

  lemma LoadedEqualExactly(s: State, read: File)
    requires Inv(s) && s.Latest() in s.loads && s.loads[s.Latest()].file == read
    requires s.file.Whole? || s.file == read
    ensures s.file == read || s.file == Whole(s.Latest()) ==> FileEqualsMemory(s)
    ensures LoadedContentIsUnique(s, read) && FileEqualsMemory(s) ==> s.file == read || s.file == Whole(s.Latest())
  {
  }

  /** Nothing changes memory or takes a snapshot of it. */
  ghost predicate NoStoreOrSnapshot(steps: seq<Step>) {
    forall u :: 0 <= u < |steps| ==> !IsStore(steps[u]) && !steps[u].TakeSnapshot?
  }

  ghost predicate NoSnapshotHeld(s: State) {
    forall i :: i in s.savers ==> !s.savers[i].HasSnapshot()
  }

  lemma {:induction false} NothingToRename(from: State, steps: seq<Step>, s: State)
    requires Reaches(from, steps, s) && NoSnapshotHeld(from) && NoStoreOrSnapshot(steps)
    ensures NoSnapshotHeld(s) && s.file == from.file
    decreases |steps|
  {
    if steps != [] {
      assert !IsStore(steps[0]) && !steps[0].TakeSnapshot?;
      assert forall u :: 0 <= u < |steps[1..]| ==> steps[1..][u] == steps[u + 1];
      NothingToRename(Next(from, steps[0]), steps[1..], s);
    }
  }

  /** Every snapshot in flight is of the latest store, and the file is the one read or that store. */
  ghost predicate OnlyLatestInFlight(s: State, read: File) {
    && (forall i :: i in s.savers && s.savers[i].HasSnapshot() ==> s.savers[i].snapshot == s.Latest())
    && (s.file == read || (s.Shaped() && s.file == Whole(s.Latest())))
  }

  lemma OnlyLatestStep(s: State, e: Step, read: File)
    requires s.Shaped() && SnapshotsOrdered(s) && Enabled(s, e) && OnlyLatestInFlight(s, read) && !IsStore(e)
    ensures OnlyLatestInFlight(Next(s, e), read)
  {
  }

  lemma {:induction false} OnlyLatestIsSaved(from: State, steps: seq<Step>, s: State, read: File)
    requires Inv(from) && Reaches(from, steps, s) && OnlyLatestInFlight(from, read) && NoStoreFrom(steps, 0)
    ensures Inv(s) && OnlyLatestInFlight(s, read)
    decreases |steps|
  {
    if steps != [] {
      assert !IsStore(steps[0]);
      assert forall u :: 0 <= u < |steps[1..]| ==> steps[1..][u] == steps[u + 1];
      StepKeepsInv(from, steps[0]);
      OnlyLatestStep(from, steps[0], read);
      OnlyLatestIsSaved(Next(from, steps[0]), steps[1..], s, read);
    }
  }

  /** A condition known before the load: while no save holds a snapshot as it reads, nothing is stored or
      snapshotted between its two steps, and nothing is stored afterwards, file and memory stay equal. */
  lemma UndisturbedLoadLeavesThemEqual(s1: State, id: nat, c: Content, between: seq<Step>, s2: State, after: seq<Step>, s: State)
    requires Inv(s1) && Enabled(s1, LoadRead(id, c)) && NoSnapshotHeld(s1)
    requires Reaches(Next(s1, LoadRead(id, c)), between, s2) && NoStoreOrSnapshot(between)
    requires s2.Shaped() && Enabled(s2, LoadStore(id)) && Reaches(Next(s2, LoadStore(id)), after, s) && NoStoreFrom(after, 0)
    ensures s.Shaped() && s.Memory() == c && FileEqualsMemory(s)
  {
    NothingToRename(Next(s1, LoadRead(id, c)), between, s2);
    StepKeepsInv(s1, LoadRead(id, c));
    RunKeepsInv(Next(s1, LoadRead(id, c)), between, s2);
    StepKeepsInv(s2, LoadStore(id));
    OnlyLatestIsSaved(Next(s2, LoadStore(id)), after, s, s1.file);
    assert LoadStore(id) !in between;
    LoadPhases(s1, id, c, between, s2, after, s);
    LoadedEqualExactly(s, s1.file);
  }

  lemma ReadingIsKept(s1: State, id: nat, c: Content, between: seq<Step>, s2: State)
    requires Inv(s1) && Enabled(s1, LoadRead(id, c)) && Reaches(Next(s1, LoadRead(id, c)), between, s2)
    requires LoadStore(id) !in between
    ensures id in s2.loaders && s2.loaders[id] == Reading(s1.file, c)
  {
    StepKeepsInv(s1, LoadRead(id, c));
    LoaderWaits(Next(s1, LoadRead(id, c)), id, between, s2);
  }

  lemma {:induction false} LoaderWaits(from: State, id: nat, steps: seq<Step>, s: State)
    requires Reaches(from, steps, s) && id in from.loaders && LoadStore(id) !in steps
    ensures id in s.loaders && s.loaders[id] == from.loaders[id]
    decreases |steps|
  {
    if steps != [] {
      assert steps[0] in steps && forall e :: e in steps[1..] ==> e in steps;
      LoaderWaits(Next(from, steps[0]), id, steps[1..], s);
    }
  }

  /** Without stores memory stays, and so does what it was loaded from. */
  lemma {:induction false} MemoryIsKept(from: State, steps: seq<Step>, s: State)
    requires Reaches(from, steps, s) && from.Shaped() && NoStoreFrom(steps, 0)
    ensures s.history == from.history && s.loads == from.loads
    decreases |steps|
  {
    if steps != [] {
      assert !IsStore(steps[0]);
      assert forall u :: 0 <= u < |steps[1..]| ==> steps[1..][u] == steps[u + 1];
      MemoryIsKept(Next(from, steps[0]), steps[1..], s);
    }
  }
}
