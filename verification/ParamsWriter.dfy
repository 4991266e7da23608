/** The non-blocking parameter writer: one caller thread, workers started on demand, and the steps of
    an atomic file write, all interleaved. */
module ParamsWriter {
  type Key = string
  type Value = string

  datatype Write = Write(key: Key, value: Value)

  /** A file's data, and whether it has been forced to disk. */
  datatype Inode = Inode(content: Value, synced: bool)

  /** `files` is what a reader sees.  `images` holds, per key, every inode a crash could leave under that
      name: a rename is only certain once the directory has been synced. */
  datatype Disk = Disk(files: map<Key, Inode>, images: map<Key, set<Inode>>) {
    function Images(k: Key): set<Inode> { if k in images then images[k] else {} }

    function Renamed(k: Key, i: Inode): Disk { Disk(files[k := i], images[k := Images(k) + {i}]) }

    function DirSynced(): Disk { this.(images := map k | k in files :: {files[k]}) }
  }

  /** The steps of `put`, named after the system call that comes next. */
  datatype Stage = Creating | Filling | Syncing | Renaming | SyncingDir | Unlinking

  datatype Worker = Popping | Putting(write: Write, stage: Stage, tmp: Inode, renamed: bool) | Exiting | Done

  datatype System = System(queue: seq<Write>, workers: seq<Worker>, checking: bool, disk: Disk,
                           pushed: seq<Write>, finished: seq<(Write, bool)>)

  /** `ok` is whether the system call succeeds; `partial` is what a failed write leaves behind. */
  datatype Action =
    | CallerPush(w: Write)
    | CallerCheck
    | WorkerStep(id: nat, ok: bool, partial: Value)

  /** One system call of `put`; None means `put` has returned. */
  function PutStep(p: Worker, disk: Disk, ok: bool, partial: Value): (Worker, Disk)
    requires p.Putting?
  {
    match p.stage
    case Creating => (if ok then p.(stage := Filling, tmp := Inode("", false)) else Popping, disk)
    case Filling =>
      (p.(stage := if ok then Syncing else Unlinking, tmp := Inode(if ok then p.write.value else partial, false)), disk)
    case Syncing => (p.(stage := if ok then Renaming else Unlinking, tmp := p.tmp.(synced := ok)), disk)
    case Renaming =>
      if ok then (p.(stage := SyncingDir, renamed := true), disk.Renamed(p.write.key, p.tmp))
      else (p.(stage := Unlinking), disk)
    case SyncingDir => if ok then (Popping, disk.DirSynced()) else (p.(stage := Unlinking), disk)
    case Unlinking => (Popping, disk)
  }

  predicate FutureReady(s: System) { s.workers == [] || s.workers[|s.workers| - 1].Done? }

  function Act(s: System, a: Action): System {
    match a
    case CallerPush(w) => if s.checking then s else s.(queue := s.queue + [w], pushed := s.pushed + [w], checking := true)
    case CallerCheck =>
      if !s.checking then s
      else s.(checking := false, workers := if FutureReady(s) then s.workers + [Popping] else s.workers)
    case WorkerStep(id, ok, partial) =>
      if id >= |s.workers| then s
      else match s.workers[id]
        case Popping =>
          if s.queue == [] then s.(workers := s.workers[id := Exiting])
          else s.(workers := s.workers[id := Putting(s.queue[0], Creating, Inode("", false), false)], queue := s.queue[1..])
        case Putting(w, _, _, renamed) =>
          var (next, disk) := PutStep(s.workers[id], s.disk, ok, partial);
          s.(workers := s.workers[id := next], disk := disk,
             finished := if next.Putting? then s.finished else s.finished + [(w, renamed)])
        case Exiting => s.(workers := s.workers[id := Done])
        case Done => s
  }

  function Run(s: System, actions: seq<Action>): System
    decreases |actions|
  {
    if actions == [] then s else Run(Act(s, actions[0]), actions[1..])
  }

  /** All values on disk are complete and certain, and nothing is under way. */
  predicate Fresh(s: System) {
    && s.queue == [] && s.workers == [] && !s.checking && s.pushed == [] && s.finished == []
    && (forall k | k in s.disk.files :: s.disk.files[k].synced)
    && s.disk.images == map k | k in s.disk.files :: {s.disk.files[k]}
  }

  function Checks(actions: seq<Action>): nat {
    if actions == [] then 0 else (if actions[0].CallerCheck? then 1 else 0) + Checks(actions[1..])
  }

  /** The caller checks for a worker after each push, before the next. */
  lemma {:induction false} PushesAreChecked(s: System, actions: seq<Action>)
    ensures var t := Run(s, actions);
      |t.pushed| + (if s.checking then 1 else 0) <= |s.pushed| + Checks(actions) + (if t.checking then 1 else 0)
    decreases |actions|
  {
    if actions != [] {
      PushesAreChecked(Act(s, actions[0]), actions[1..]);
      OneActChecked(s, actions[0]);
      hide Act;
    }
  }

  lemma OneActChecked(s: System, a: Action)
    ensures var t, n := Act(s, a), if a.CallerCheck? then 1 else 0;
      |t.pushed| + (if s.checking then 1 else 0) <= |s.pushed| + n + (if t.checking then 1 else 0)
  {
    hide PutStep;
  }

  // ----- order

  function InFlight(s: System): seq<Write> {
    if s.workers != [] && s.workers[|s.workers| - 1].Putting? then [s.workers[|s.workers| - 1].write] else []
  }

  function Writes(finished: seq<(Write, bool)>): (r: seq<Write>)
    ensures |r| == |finished|
  {
    seq(|finished|, i requires 0 <= i < |finished| => finished[i].0)
  }

  /** Only the worker behind the future can be live, and every pushed write is finished, in flight or queued, in
      push order. */
  predicate Orderly(s: System) {
    && (forall i | 0 <= i < |s.workers| - 1 :: s.workers[i].Done?)
    && Writes(s.finished) + InFlight(s) + s.queue == s.pushed
  }

  lemma ActKeepsOrder(s: System, a: Action)
    requires Orderly(s)
    ensures Orderly(Act(s, a))
  {
    var t := Act(s, a);
    var n := |s.workers|;
    match a
    case CallerPush(w) =>
      assert Writes(s.finished) + InFlight(s) + (s.queue + [w]) == Writes(s.finished) + InFlight(s) + s.queue + [w];
    case CallerCheck =>
      if s.checking && FutureReady(s) && n > 0 {
        assert forall i | 0 <= i < n :: s.workers[i].Done?;
      }
    case WorkerStep(id, ok, partial) =>
      if id < n && !s.workers[id].Done? {
        assert id == n - 1;
        WorkerKeepsOrder(s, ok, partial);
      }
  }

  lemma WriteFinished(finished: seq<(Write, bool)>, w: Write, renamed: bool)
    ensures Writes(finished + [(w, renamed)]) == Writes(finished) + [w]
  {
  }

  lemma PutStepKeepsWrite(p: Worker, disk: Disk, ok: bool, partial: Value)
    requires p.Putting?
    ensures var next := PutStep(p, disk, ok, partial).0; if next.Putting? then next.write == p.write else next == Popping
  {
  }

  lemma WorkerKeepsOrder(s: System, ok: bool, partial: Value)
    requires Orderly(s) && s.workers != []
    ensures Orderly(Act(s, WorkerStep(|s.workers| - 1, ok, partial)))
  {
    if s.workers[|s.workers| - 1].Putting? {
      PuttingKeepsOrder(s, ok, partial);
    } else {
      hide PutStep, Writes;
      if s.workers[|s.workers| - 1].Popping? && s.queue != [] {
        assert Writes(s.finished) + [] + s.queue == Writes(s.finished) + [s.queue[0]] + s.queue[1..];
      }
    }
  }

  lemma PuttingKeepsOrder(s: System, ok: bool, partial: Value)
    requires Orderly(s) && s.workers != [] && s.workers[|s.workers| - 1].Putting?
    ensures Orderly(Act(s, WorkerStep(|s.workers| - 1, ok, partial)))
  {
    var p := s.workers[|s.workers| - 1];
    WriteFinished(s.finished, p.write, p.renamed);
    PutStepKeepsWrite(p, s.disk, ok, partial);
    hide PutStep, Writes;
  }

  // ----- what is on disk

  /** The visible values: the initial ones, overwritten by the renamed writes in order. */
  function Replay(initial: map<Key, Value>, finished: seq<(Write, bool)>): map<Key, Value> {
    if finished == [] then initial
    else
      var k := |finished| - 1;
      var before := Replay(initial, finished[..k]);
      var (w, renamed) := finished[k];
      if renamed then before[w.key := w.value] else before
  }

  function Contents(files: map<Key, Inode>): map<Key, Value> { map k | k in files :: files[k].content }

  function Current(s: System): seq<(Write, bool)> {
    s.finished + if InFlight(s) == [] then [] else [(InFlight(s)[0], s.workers[|s.workers| - 1].renamed)]
  }

  /** The temporary file is complete before it is renamed. */
  predicate TmpIsGood(w: Worker) {
    w.Putting? ==>
      && (w.stage.Syncing? ==> w.tmp.content == w.write.value)
      && (w.stage.Renaming? ==> w.tmp == Inode(w.write.value, true))
      && (w.stage in {Creating, Filling, Syncing, Renaming} ==> !w.renamed)
      && (w.stage.SyncingDir? ==> w.renamed)
  }

  /** A value that was there at the start or was pushed whole. */
  predicate Complete(initial: map<Key, Value>, pushed: seq<Write>, k: Key, i: Inode) {
    i.synced && ((k in initial && i.content == initial[k]) || Write(k, i.content) in pushed)
  }

  ghost predicate Durable(initial: map<Key, Value>, s: System) {
    && (forall w | w in s.workers :: TmpIsGood(w))
    && Contents(s.disk.files) == Replay(initial, Current(s))
    && (forall k | k in s.disk.files :: s.disk.files[k] in s.disk.Images(k))
    && forall k, i | i in s.disk.Images(k) :: Complete(initial, s.pushed, k, i)
  }

  lemma ReplaySnoc(initial: map<Key, Value>, finished: seq<(Write, bool)>, w: Write, renamed: bool)
    ensures Replay(initial, finished + [(w, renamed)])
         == if renamed then Replay(initial, finished)[w.key := w.value] else Replay(initial, finished)
  {
    assert (finished + [(w, renamed)])[..|finished|] == finished;
  }

  /** What putting `w` may add to what a crash leaves under `k`. */
  function NewImage(w: Write, k: Key): set<Inode> { if k == w.key then {Inode(w.value, true)} else {} }

  /** What one system call of `put` does to the disk. */
  lemma PutStepOnDisk(p: Worker, disk: Disk, ok: bool, partial: Value)
    requires p.Putting? && TmpIsGood(p)
    ensures var (next, d) := PutStep(p, disk, ok, partial);
      && TmpIsGood(next)
      && (forall k :: d.Images(k) <= disk.Images(k) + NewImage(p.write, k) || (k in disk.files && d.Images(k) == {disk.files[k]}))
      && (next.Putting? ==> next.write == p.write)
      && (next.Putting? && next.renamed != p.renamed ==> d.files == disk.files[p.write.key := Inode(p.write.value, true)])
      && (!next.Putting? || next.renamed == p.renamed ==> d.files == disk.files)
      && (next.Putting? && p.renamed ==> next.renamed)
      && ((forall k | k in disk.files :: disk.files[k] in disk.Images(k)) ==> forall k | k in d.files :: d.files[k] in d.Images(k))
  {
  }

  lemma ContentsUpdate(files: map<Key, Inode>, k: Key, i: Inode)
    ensures Contents(files[k := i]) == Contents(files)[k := i.content]
  {
  }

  lemma ActKeepsDurable(initial: map<Key, Value>, s: System, a: Action)
    requires Orderly(s) && Durable(initial, s)
    ensures Durable(initial, Act(s, a))
  {
    hide Durable, Act;
    if a.WorkerStep? && a.id < |s.workers| && s.workers[a.id].Putting? {
      assert a.id == |s.workers| - 1;
      PutKeepsDurable(initial, s, a.ok, a.partial);
    } else {
      OthersKeepDurable(initial, s, a);
    }
  }

  /** What is not a step of `put` leaves the disk alone. */
  lemma OthersKeepDurable(initial: map<Key, Value>, s: System, a: Action)
    requires Orderly(s) && Durable(initial, s)
    requires !(a.WorkerStep? && a.id < |s.workers| && s.workers[a.id].Putting?)
    ensures Durable(initial, Act(s, a))
  {
    OthersKeepDisk(s, a);
    OthersKeepCurrent(initial, s, a);
    hide Act, Replay, Current, TmpIsGood, Disk.Images, Contents, Orderly;
  }

  lemma OthersKeepDisk(s: System, a: Action)
    requires !(a.WorkerStep? && a.id < |s.workers| && s.workers[a.id].Putting?)
    ensures var t := Act(s, a);
      && t.disk == s.disk && (forall w | w in s.pushed :: w in t.pushed)
      && ((forall w | w in s.workers :: TmpIsGood(w)) ==> forall w | w in t.workers :: TmpIsGood(w))
  {
  }

  lemma OthersKeepCurrent(initial: map<Key, Value>, s: System, a: Action)
    requires Orderly(s)
    requires !(a.WorkerStep? && a.id < |s.workers| && s.workers[a.id].Putting?)
    ensures Replay(initial, Current(Act(s, a))) == Replay(initial, Current(s))
  {
    hide Replay;
    if a.WorkerStep? && a.id < |s.workers| && s.workers[a.id].Popping? && s.queue != [] {
      assert a.id == |s.workers| - 1;
      ReplaySnoc(initial, s.finished, s.queue[0], false);
      assert s.finished + [] == s.finished;
    } else {
      assert Current(Act(s, a)) == Current(s);
    }
  }

  lemma PutKeepsDurable(initial: map<Key, Value>, s: System, ok: bool, partial: Value)
    requires Orderly(s) && Durable(initial, s) && s.workers != [] && s.workers[|s.workers| - 1].Putting?
    ensures Durable(initial, Act(s, WorkerStep(|s.workers| - 1, ok, partial)))
  {
    var id := |s.workers| - 1;
    var p := s.workers[id];
    assert p in s.workers && TmpIsGood(p);
    PutStepOnDisk(p, s.disk, ok, partial);
    PutKeepsContents(initial, s, ok, partial);
    var (next, d) := PutStep(p, s.disk, ok, partial);
    var t := Act(s, WorkerStep(id, ok, partial));
    assert t.disk == d && t.pushed == s.pushed && t.workers == s.workers[id := next];
    InFlightIsPushed(s);
    hide PutStep, TmpIsGood, Current, Replay, Act, Orderly;
    ImagesStayComplete(initial, s.pushed, s.disk, d, p.write);
    hide Complete, Disk.Images, NewImage;
  }

  lemma InFlightIsPushed(s: System)
    requires Orderly(s) && s.workers != [] && s.workers[|s.workers| - 1].Putting?
    ensures s.workers[|s.workers| - 1].write in s.pushed
  {
    assert s.pushed[|s.finished|] == InFlight(s)[0];
  }

  lemma ImagesStayComplete(initial: map<Key, Value>, pushed: seq<Write>, disk: Disk, d: Disk, w: Write)
    requires w in pushed && (forall k | k in disk.files :: disk.files[k] in disk.Images(k))
    requires forall k, i | i in disk.Images(k) :: Complete(initial, pushed, k, i)
    requires forall k :: d.Images(k) <= disk.Images(k) + NewImage(w, k) || (k in disk.files && d.Images(k) == {disk.files[k]})
    ensures forall k, i | i in d.Images(k) :: Complete(initial, pushed, k, i)
  {
    hide Disk.Images;
    forall k, i | i in d.Images(k) ensures Complete(initial, pushed, k, i) {
      if i !in disk.Images(k) && i in NewImage(w, k) {
        assert Write(k, i.content) == w;
      }
    }
  }

  lemma PutKeepsContents(initial: map<Key, Value>, s: System, ok: bool, partial: Value)
    requires s.workers != [] && s.workers[|s.workers| - 1].Putting? && TmpIsGood(s.workers[|s.workers| - 1])
    requires Contents(s.disk.files) == Replay(initial, Current(s))
    ensures var t := Act(s, WorkerStep(|s.workers| - 1, ok, partial));
      Contents(t.disk.files) == Replay(initial, Current(t))
  {
    hide Replay, Contents;
    var id := |s.workers| - 1;
    var p := s.workers[id];
    PutStepOnDisk(p, s.disk, ok, partial);
    var (next, d) := PutStep(p, s.disk, ok, partial);
    var t := Act(s, WorkerStep(id, ok, partial));
    assert Current(s) == s.finished + [(p.write, p.renamed)];
    assert t.disk == d && Current(t) == s.finished + [(p.write, if next.Putting? then next.renamed else p.renamed)];
    hide PutStep, TmpIsGood, Act, Current;
    ReplaySnoc(initial, s.finished, p.write, p.renamed);
    ReplaySnoc(initial, s.finished, p.write, true);
    ContentsUpdate(s.disk.files, p.write.key, Inode(p.write.value, true));
  }

  /** On every run: writes happen in push order, readers see the renamed ones replayed in that order, and
      whatever survives a crash is complete. */
  lemma {:induction false} RunIsSafe(initial: map<Key, Value>, s: System, actions: seq<Action>)
    requires Orderly(s) && Durable(initial, s)
    ensures Orderly(Run(s, actions)) && Durable(initial, Run(s, actions))
    decreases |actions|
  {
    if actions != [] {
      ActKeepsOrder(s, actions[0]);
      ActKeepsDurable(initial, s, actions[0]);
      hide Orderly, Durable, Act;
      RunIsSafe(initial, Act(s, actions[0]), actions[1..]);
    }
  }

  lemma FreshIsSafe(s: System)
    requires Fresh(s)
    ensures Orderly(s) && Durable(Contents(s.disk.files), s)
  {
  }

  lemma SafeFromStart(s: System, actions: seq<Action>)
    requires Fresh(s)
    ensures var t := Run(s, actions); var initial := Contents(s.disk.files);
      && Writes(t.finished) + InFlight(t) + t.queue == t.pushed
      && (forall i | 0 <= i < |t.workers| - 1 :: t.workers[i].Done?)
      && Contents(t.disk.files) == Replay(initial, Current(t))
      && forall k, i | i in t.disk.Images(k) :: Complete(initial, t.pushed, k, i)
  {
    FreshIsSafe(s);
    RunIsSafe(Contents(s.disk.files), s, actions);
    hide Run, Fresh;
  }

  /** While one put is under way, a crash leaves each file as it could have been before, and the file being
      put may also hold the complete new value. */
  lemma {:induction false} OldOrNew(s: System, actions: seq<Action>, w: Write)
    requires Orderly(s) && (forall p | p in s.workers :: TmpIsGood(p)) && InFlight(s) == [w]
    requires (forall k | k in s.disk.files :: s.disk.files[k] in s.disk.Images(k))
    requires |Run(s, actions).finished| == |s.finished|
    ensures forall k :: Run(s, actions).disk.Images(k) <= s.disk.Images(k) + NewImage(w, k)
    decreases |actions|
  {
    if actions != [] {
      FinishedGrows(s, actions);
      var t := Act(s, actions[0]);
      StepDuringPut(s, actions[0], w);
      ActKeepsOrder(s, actions[0]);
      hide Act;
      OldOrNew(t, actions[1..], w);
    }
  }

  lemma {:induction false} FinishedGrows(s: System, actions: seq<Action>)
    ensures |Run(s, actions).finished| >= |s.finished|
    ensures actions != [] ==> |Run(s, actions).finished| >= |Act(s, actions[0]).finished| >= |s.finished|
    decreases |actions|
  {
    if actions != [] {
      ActFinishes(s, actions[0]);
      FinishedGrows(Act(s, actions[0]), actions[1..]);
      hide Act;
    }
  }

  lemma ActFinishes(s: System, a: Action)
    ensures |s.finished| <= |Act(s, a).finished|
  {
  }

  lemma StepDuringPut(s: System, a: Action, w: Write)
    requires Orderly(s) && (forall p | p in s.workers :: TmpIsGood(p)) && InFlight(s) == [w]
    requires (forall k | k in s.disk.files :: s.disk.files[k] in s.disk.Images(k))
    requires |Act(s, a).finished| == |s.finished|
    ensures var t := Act(s, a);
      && (forall p | p in t.workers :: TmpIsGood(p)) && InFlight(t) == [w]
      && (forall k | k in t.disk.files :: t.disk.files[k] in t.disk.Images(k))
      && forall k :: t.disk.Images(k) <= s.disk.Images(k) + NewImage(w, k)
  {
    if a.WorkerStep? && a.id < |s.workers| && s.workers[a.id].Putting? {
      var p := s.workers[a.id];
      assert p in s.workers;
      PutStepOnDisk(p, s.disk, a.ok, a.partial);
    }
  }

  // ----- when the queue is empty

  /** The caller looks at a worker that is on its way out although a write is still queued. */
  predicate Slips(s: System) {
    s.queue != [] && s.workers != [] && s.workers[|s.workers| - 1].Exiting?
  }

  /** Whether the last check that followed a push slipped; `before` speaks for the checks before the run. */
  function Slipped(s: System, before: bool, actions: seq<Action>): bool
    decreases |actions|
  {
    if actions == [] then before
    else
      var now := if actions[0].CallerCheck? && s.checking then Slips(s) else before;
      Slipped(Act(s, actions[0]), now, actions[1..])
  }

  /** The newest worker has found the queue empty. */
  predicate Leaving(s: System) {
    s.workers == [] || s.workers[|s.workers| - 1].Exiting? || s.workers[|s.workers| - 1].Done?
  }

  /** A leaving worker has left nothing behind, unless a check has slipped; then something is left for good. */
  predicate Accounted(s: System, slipped: bool) {
    && (forall i | 0 <= i < |s.workers| - 1 :: s.workers[i].Done?)
    && (slipped ==> s.queue != [] && s.workers != [] && Leaving(s))
    && (!slipped && !s.checking && Leaving(s) ==> s.queue == [])
  }

  lemma ActKeepsAccounted(s: System, a: Action, slipped: bool)
    requires Accounted(s, slipped)
    ensures Accounted(Act(s, a), if a.CallerCheck? && s.checking then Slips(s) else slipped)
  {
    if a.WorkerStep? && a.id < |s.workers| && !s.workers[a.id].Done? {
      assert a.id == |s.workers| - 1;
    }
    hide PutStep;
  }

  lemma {:induction false} RunKeepsAccounted(s: System, actions: seq<Action>, slipped: bool)
    requires Accounted(s, slipped)
    ensures Accounted(Run(s, actions), Slipped(s, slipped, actions))
    decreases |actions|
  {
    if actions != [] {
      ActKeepsAccounted(s, actions[0], slipped);
      hide Accounted, Act, Slips;
      RunKeepsAccounted(Act(s, actions[0]), actions[1..], if actions[0].CallerCheck? && s.checking then Slips(s) else slipped);
    }
  }

  /** On every run from a fresh start: once no call is under way and the worker is done, the queue is empty if
      and only if the last check after a push did not slip.  The destructor asserts it is empty at just such a
      point. */
  lemma QueueDrainsExactly(s: System, actions: seq<Action>)
    requires Fresh(s)
    ensures var t := Run(s, actions);
      !t.checking && FutureReady(t) ==> (t.queue == [] <==> !Slipped(s, false, actions))
  {
    RunKeepsAccounted(s, actions, false);
    hide Run, Slipped;
  }

  /** A write pushed while the worker is leaving starts no new one, and stays queued with no worker left. */
  lemma QueueNeedNotDrain(a: Write, b: Write)
    ensures exists actions: seq<Action> ::
      var t := Run(System([], [], false, Disk(map[], map[]), [], []), actions);
      t.queue == [b] && !t.checking && FutureReady(t)
  {
    var s0 := System([], [], false, Disk(map[], map[]), [], []);
    var ok := WorkerStep(0, true, "");
    var s1 := Act(Act(s0, CallerPush(a)), CallerCheck);
    assert s1 == s0.(workers := [Popping], queue := [a], pushed := [a]);
    var no := WorkerStep(0, false, "");
    var s2 := Act(Act(s1, ok), no);
    assert s2.workers == [Popping] && s2.queue == [] && !s2.checking;
    var s3 := Act(s2, ok);
    assert s3.workers == [Exiting] && s3.queue == [];
    var s4 := Act(Act(s3, CallerPush(b)), CallerCheck);
    assert s4.workers == [Exiting] && s4.queue == [b] && !s4.checking;
    var s5 := Act(s4, ok);
    assert s5.workers == [Done] && s5.queue == [b];
    var actions := [CallerPush(a), CallerCheck, ok, no, ok, CallerPush(b), CallerCheck, ok];
    RunEight(s0, actions);
    assert Run(s0, actions) == s5;
  }

  lemma RunEight(s: System, a: seq<Action>)
    requires |a| == 8
    ensures Run(s, a) == Act(Act(Act(Act(Act(Act(Act(Act(s, a[0]), a[1]), a[2]), a[3]), a[4]), a[5]), a[6]), a[7])
  {
    hide Act;
    assert Run(s, a) == Run(Act(Act(s, a[0]), a[1]), a[2..]) by { RunTwo(s, a); }
    var t := Act(Act(s, a[0]), a[1]);
    RunTwo(t, a[2..]);
    assert a[2..][2..] == a[4..];
    var u := Act(Act(t, a[2]), a[3]);
    RunTwo(u, a[4..]);
    assert a[4..][2..] == a[6..];
    RunTwo(Act(Act(u, a[4]), a[5]), a[6..]);
    assert a[6..][2..] == [];
  }

  lemma RunTwo(s: System, a: seq<Action>)
    requires |a| >= 2
    ensures Run(s, a) == Run(Act(Act(s, a[0]), a[1]), a[2..])
  {
    hide Act;
    assert a[1..][1..] == a[2..];
  }

  /** The next push finds no worker and starts one, so the delayed write still goes first. */
  lemma NextPushRestarts(s: System, w: Write)
    requires FutureReady(s) && !s.checking
    ensures var t := Act(Act(s, CallerPush(w)), CallerCheck);
      t.workers == s.workers + [Popping] && t.queue == s.queue + [w]
  {
  }

  // ----- what a put comes to, and that a worker left alone writes everything

  /** `put` from where it stands, one outcome of a system call after another. */
  function Finish(p: Worker, disk: Disk, outcomes: seq<bool>, partial: Value): (Worker, Disk)
    decreases |outcomes|
  {
    if !p.Putting? || outcomes == [] then (p, disk)
    else
      var (next, d) := PutStep(p, disk, outcomes[0], partial);
      Finish(next, d, outcomes[1..], partial)
  }

  /** The value is visible if and only if creating, writing, syncing and renaming all succeed, and certain if and only
      if the directory is synced too; otherwise the file is what it was. */
  lemma PutOutcome(w: Write, disk: Disk, created: bool, filled: bool, synced: bool, renamed: bool, dirSynced: bool, last: bool, partial: Value)
    ensures var (p, d) := Finish(Putting(w, Creating, Inode("", false), false), disk,
                                 [created, filled, synced, renamed, dirSynced, last], partial);
      var visible := created && filled && synced && renamed;
      && p == Popping
      && d.files == (if visible then disk.files[w.key := Inode(w.value, true)] else disk.files)
      && (visible && dirSynced ==> forall k | k in d.files :: d.Images(k) == {d.files[k]})
      && (visible && !dirSynced ==> d.Images(w.key) == disk.Images(w.key) + {Inode(w.value, true)}
                                    && forall k | k != w.key :: d.Images(k) == disk.Images(k))
      && (!visible ==> d == disk)
  {
    RenameOnDisk(disk, w.key, Inode(w.value, true));
    hide Finish, Disk.Renamed, Disk.DirSynced, Disk.Images;
    var three, rest := [created, filled, synced], [renamed, dirSynced, last];
    assert [created, filled, synced, renamed, dirSynced, last] == three + rest;
    if created && filled && synced {
      ToRenaming(w, disk, rest, partial);
      FromRenaming(w, disk, renamed, dirSynced, last, partial);
    } else {
      GivesUp(w, disk, created, filled, synced, rest, partial);
    }
  }

  lemma ToRenaming(w: Write, disk: Disk, rest: seq<bool>, partial: Value)
    ensures Finish(Putting(w, Creating, Inode("", false), false), disk, [true, true, true] + rest, partial)
         == Finish(Putting(w, Renaming, Inode(w.value, true), false), disk, rest, partial)
  {
    hide Finish;
    assert [true, true, true] + rest == [true] + ([true] + ([true] + rest));
    OneCall(Putting(w, Creating, Inode("", false), false), disk, true, partial, [true] + ([true] + rest));
    OneCall(Putting(w, Filling, Inode("", false), false), disk, true, partial, [true] + rest);
    OneCall(Putting(w, Syncing, Inode(w.value, false), false), disk, true, partial, rest);
  }

  lemma GivesUp(w: Write, disk: Disk, created: bool, filled: bool, synced: bool, rest: seq<bool>, partial: Value)
    requires !(created && filled && synced) && rest != []
    ensures Finish(Putting(w, Creating, Inode("", false), false), disk, [created, filled, synced] + rest, partial) == (Popping, disk)
  {
    hide Finish;
    var two, one := [filled] + ([synced] + rest), [synced] + rest;
    assert [created, filled, synced] + rest == [created] + two;
    OneCall(Putting(w, Creating, Inode("", false), false), disk, created, partial, two);
    if !created {
      Returned(disk, two, partial);
      return;
    }
    OneCall(Putting(w, Filling, Inode("", false), false), disk, filled, partial, one);
    if !filled {
      Unlinks(Putting(w, Unlinking, Inode(partial, false), false), disk, one, partial);
      return;
    }
    OneCall(Putting(w, Syncing, Inode(w.value, false), false), disk, false, partial, rest);
    Unlinks(Putting(w, Unlinking, Inode(w.value, false), false), disk, rest, partial);
  }

  lemma FromRenaming(w: Write, disk: Disk, renamed: bool, dirSynced: bool, last: bool, partial: Value)
    ensures var (p, d) := Finish(Putting(w, Renaming, Inode(w.value, true), false), disk, [renamed, dirSynced, last], partial);
      p == Popping && d == if !renamed then disk else if dirSynced then disk.Renamed(w.key, Inode(w.value, true)).DirSynced()
                           else disk.Renamed(w.key, Inode(w.value, true))
  {
    hide Finish, Disk.Renamed, Disk.DirSynced;
    assert [renamed, dirSynced, last] == [renamed] + [dirSynced, last] && [dirSynced, last] == [dirSynced] + [last];
    OneCall(Putting(w, Renaming, Inode(w.value, true), false), disk, renamed, partial, [dirSynced, last]);
    if !renamed {
      Unlinks(Putting(w, Unlinking, Inode(w.value, true), false), disk, [dirSynced, last], partial);
      return;
    }
    var d := disk.Renamed(w.key, Inode(w.value, true));
    OneCall(Putting(w, SyncingDir, Inode(w.value, true), true), d, dirSynced, partial, [last]);
    if dirSynced {
      Returned(d.DirSynced(), [last], partial);
    } else {
      Unlinks(Putting(w, Unlinking, Inode(w.value, true), true), d, [last], partial);
    }
  }

  lemma OneCall(p: Worker, disk: Disk, outcome: bool, partial: Value, rest: seq<bool>)
    requires p.Putting?
    ensures var (next, d) := PutStep(p, disk, outcome, partial);
      Finish(p, disk, [outcome] + rest, partial) == Finish(next, d, rest, partial)
  {
    hide PutStep;
    assert ([outcome] + rest)[1..] == rest;
  }

  lemma Returned(disk: Disk, rest: seq<bool>, partial: Value)
    ensures Finish(Popping, disk, rest, partial) == (Popping, disk)
  {
  }

  lemma Unlinks(p: Worker, disk: Disk, rest: seq<bool>, partial: Value)
    requires p.Putting? && p.stage.Unlinking? && rest != []
    ensures Finish(p, disk, rest, partial) == (Popping, disk)
  {
    assert rest == [rest[0]] + rest[1..];
    OneCall(p, disk, rest[0], partial, rest[1..]);
    Returned(disk, rest[1..], partial);
  }

  lemma RenameOnDisk(disk: Disk, k: Key, i: Inode)
    ensures var d := disk.Renamed(k, i);
      && d.files == disk.files[k := i] && d.Images(k) == disk.Images(k) + {i} && (forall j | j != k :: d.Images(j) == disk.Images(j))
      && d.DirSynced().files == d.files && forall j | j in d.files :: d.DirSynced().Images(j) == {d.files[j]}
  {
  }

  function Steps(id: nat, n: nat): seq<Action> {
    if n == 0 then [] else [WorkerStep(id, true, "")] + Steps(id, n - 1)
  }

  lemma {:induction false} StepsMore(s: System, id: nat, m: nat, n: nat)
    ensures Run(s, Steps(id, m + n)) == Run(Run(s, Steps(id, m)), Steps(id, n))
    decreases m
  {
    hide Act;
    if m > 0 {
      assert Steps(id, m + n)[1..] == Steps(id, m + n - 1) && Steps(id, m)[1..] == Steps(id, m - 1);
      StepsMore(Act(s, WorkerStep(id, true, "")), id, m - 1, n);
    }
  }

  /** A worker that pops, and then succeeds with every call, after six steps has written the head of the queue. */
  lemma SixSteps(s: System)
    requires s.workers != [] && s.workers[|s.workers| - 1].Popping? && s.queue != []
    ensures var t := Run(s, Steps(|s.workers| - 1, 6)); var w := s.queue[0];
      && t.workers == s.workers && t.queue == s.queue[1..] && t.finished == s.finished + [(w, true)]
      && t.checking == s.checking && t.pushed == s.pushed
      && t.disk.files == s.disk.files[w.key := Inode(w.value, true)]
  {
    var id, w := |s.workers| - 1, s.queue[0];
    var empty, full, sure := Inode("", false), Inode(w.value, false), Inode(w.value, true);
    SixUnfolded(s, id);
    RenameOnDisk(s.disk, w.key, sure);
    GoodCalls(w, s.disk);
    hide Disk.Renamed, Disk.DirSynced, Disk.Images, Steps, Run, PutStep;
    var s1 := Pops(s, id);
    hide Act;
    var renamed := s.disk.Renamed(w.key, sure);
    var s2 := PutGoesOn(s1, id, Putting(w, Filling, empty, false), s.disk);
    var s3 := PutGoesOn(s2, id, Putting(w, Syncing, full, false), s.disk);
    var s4 := PutGoesOn(s3, id, Putting(w, Renaming, sure, false), s.disk);
    var s5 := PutGoesOn(s4, id, Putting(w, SyncingDir, sure, true), renamed);
    PutReturns(s5, id, renamed.DirSynced());
    assert s5.workers[id := Popping] == s.workers;
  }

  lemma Pops(s: System, id: nat) returns (t: System)
    requires id < |s.workers| && s.workers[id].Popping? && s.queue != []
    ensures t == Act(s, WorkerStep(id, true, ""))
    ensures t == s.(workers := s.workers[id := Putting(s.queue[0], Creating, Inode("", false), false)], queue := s.queue[1..])
  {
    hide PutStep;
    t := Act(s, WorkerStep(id, true, ""));
  }

  lemma GoodCalls(w: Write, disk: Disk)
    ensures var empty, full, sure := Inode("", false), Inode(w.value, false), Inode(w.value, true);
      var renamed := disk.Renamed(w.key, sure);
      && PutStep(Putting(w, Creating, empty, false), disk, true, "") == (Putting(w, Filling, empty, false), disk)
      && PutStep(Putting(w, Filling, empty, false), disk, true, "") == (Putting(w, Syncing, full, false), disk)
      && PutStep(Putting(w, Syncing, full, false), disk, true, "") == (Putting(w, Renaming, sure, false), disk)
      && PutStep(Putting(w, Renaming, sure, false), disk, true, "") == (Putting(w, SyncingDir, sure, true), renamed)
      && PutStep(Putting(w, SyncingDir, sure, true), renamed, true, "") == (Popping, renamed.DirSynced())
  {
    hide Disk.Renamed, Disk.DirSynced;
  }

  /** A call that succeeds, and is not the last. */
  lemma PutGoesOn(s: System, id: nat, next: Worker, disk: Disk) returns (t: System)
    requires id < |s.workers| && s.workers[id].Putting? && next.Putting?
    requires PutStep(s.workers[id], s.disk, true, "") == (next, disk)
    ensures t == Act(s, WorkerStep(id, true, "")) == s.(workers := s.workers[id := next], disk := disk)
  {
    hide PutStep;
    t := Act(s, WorkerStep(id, true, ""));
  }

  lemma PutReturns(s: System, id: nat, disk: Disk)
    requires id < |s.workers| && s.workers[id].Putting?
    requires PutStep(s.workers[id], s.disk, true, "") == (Popping, disk)
    ensures Act(s, WorkerStep(id, true, "")) ==
      s.(workers := s.workers[id := Popping], disk := disk, finished := s.finished + [(s.workers[id].write, s.workers[id].renamed)])
  {
    hide PutStep;
  }

  lemma SixUnfolded(s: System, id: nat)
    ensures var step := WorkerStep(id, true, ""); Run(s, Steps(id, 6)) == Act(Act(Act(Act(Act(Act(s, step), step), step), step), step), step)
  {
    hide Act;
    var step := WorkerStep(id, true, "");
    StepsMore(s, id, 2, 4);
    TwoSteps(s, id);
    var t := Act(Act(s, step), step);
    StepsMore(t, id, 2, 2);
    TwoSteps(t, id);
    TwoSteps(Act(Act(t, step), step), id);
    hide Run, Steps;
  }

  lemma TwoSteps(s: System, id: nat)
    ensures var step := WorkerStep(id, true, ""); Run(s, Steps(id, 2)) == Act(Act(s, step), step)
  {
    hide Act;
    StepsMore(s, id, 1, 1);
    OneStep(s, id);
    OneStep(Act(s, WorkerStep(id, true, "")), id);
    hide Run, Steps;
  }

  lemma OneStep(s: System, id: nat)
    ensures Run(s, Steps(id, 1)) == Act(s, WorkerStep(id, true, ""))
  {
    assert Steps(id, 1) == [WorkerStep(id, true, "")] + Steps(id, 0);
    assert Steps(id, 1)[1..] == [];
  }

  function AllTrue(writes: seq<Write>): seq<(Write, bool)> {
    if writes == [] then [] else [(writes[0], true)] + AllTrue(writes[1..])
  }

  lemma LastTwoSteps(s: System)
    requires s.workers != [] && s.workers[|s.workers| - 1].Popping? && s.queue == []
    ensures var id := |s.workers| - 1; var step := WorkerStep(id, true, "");
      Act(Act(s, step), step) == s.(workers := s.workers[id := Done])
  {
    hide PutStep;
    var id := |s.workers| - 1;
    assert s.workers[id := Exiting][id := Done] == s.workers[id := Done];
  }

  /** Six steps a write, and two to leave. */
  function DrainLength(queue: seq<Write>): nat { if queue == [] then 2 else 6 + DrainLength(queue[1..]) }

  /** The newest worker of `s` has written the queue, and is done in `t`. */
  predicate Drained(s: System, t: System)
    requires s.workers != []
  {
    && t.queue == [] && t.finished == s.finished + AllTrue(s.queue)
    && t.workers == s.workers[|s.workers| - 1 := Done] && t.checking == s.checking
  }

  lemma DrainedLater(s: System, u: System, t: System)
    requires s.workers != [] && s.queue != [] && u.workers == s.workers && u.queue == s.queue[1..] && u.checking == s.checking
    requires u.finished == s.finished + [(s.queue[0], true)] && Drained(u, t)
    ensures Drained(s, t)
  {
    assert s.finished + [(s.queue[0], true)] + AllTrue(s.queue[1..]) == s.finished + AllTrue(s.queue);
  }

  /** A worker left alone, whose calls succeed, writes the whole queue in order and then leaves. */
  lemma {:induction false} WorkerDrains(s: System)
    requires s.workers != [] && s.workers[|s.workers| - 1].Popping?
    ensures Drained(s, Run(s, Steps(|s.workers| - 1, DrainLength(s.queue))))
    decreases |s.queue|
  {
    var id := |s.workers| - 1;
    hide Run, Steps, Act;
    if s.queue == [] {
      TwoSteps(s, id);
      LastTwoSteps(s);
    } else {
      StepsMore(s, id, 6, DrainLength(s.queue[1..]));
      SixSteps(s);
      var u := Run(s, Steps(id, 6));
      var t := Run(u, Steps(id, DrainLength(s.queue[1..])));
      WorkerDrains(u);
      hide Drained;
      DrainedLater(s, u, t);
    }
  }
}
