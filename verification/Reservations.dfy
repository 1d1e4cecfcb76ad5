/**
 * Reserving the products of a recovery trial on a shared directory. Each file-system call is
 * one step of one process; a process may die between any two of them. The lock directory of a
 * dead process is removed only by hand.
 */
module Reservations {
  import opened CampaignTypes

  type Process = nat

  /** The directory name is a digest of exactly this. */
  datatype Key = Key(campaign: string, items: set<Item>)

  /** A directory without its request file is an interrupted reservation. */
  datatype Directory = Interrupted | Reserved

  datatype Stage =
    | Idle
    | Checking(target: Key, checked: set<Key>)   // holds the lock and reads the existing directories
    | Making(target: Key)                        // every directory was compatible
    | Writing(target: Key)                       // the directory exists, the request file does not
    | Leaving                                    // only the lock is left to remove
    | Dead

  datatype World = World(lock: Option<Process>, directories: map<Key, Directory>, stages: map<Process, Stage>)

  datatype Step =
    | Acquire(target: Key)
    | Check(existing: Key)
    | Finish
    | MakeDirectory
    | WriteRequest
    | Fail                                       // any error in between: the lock is still removed
    | Release
    | Die
    | ClearStaleLock

  predicate Compatible(a: Key, b: Key) { a.campaign != b.campaign || a.items !! b.items }

  function StageOf(w: World, p: Process): Stage {
    if p in w.stages then w.stages[p] else Idle
  }

  function To(w: World, p: Process, s: Stage): World { w.(stages := w.stages[p := s]) }

  /** What the step does; a step the process cannot take leaves the world as it is. */
  function Next(w: World, p: Process, s: Step): World {
    var stage := StageOf(w, p);
    match s
    case Acquire(target) =>
      if stage == Idle && w.lock.None? then To(w, p, Checking(target, {})).(lock := Some(p)) else w
    case Check(existing) =>
      if stage.Checking? && existing in w.directories && existing !in stage.checked then
        // an interrupted or overlapping reservation ends the attempt
        if w.directories[existing] == Interrupted || !Compatible(existing, stage.target) then To(w, p, Leaving)
        else To(w, p, Checking(stage.target, stage.checked + {existing}))
      else w
    case Finish =>
      if stage.Checking? && w.directories.Keys <= stage.checked then To(w, p, Making(stage.target)) else w
    case MakeDirectory =>
      if !stage.Making? then w
      else if stage.target in w.directories then To(w, p, Leaving)
      else To(w, p, Writing(stage.target)).(directories := w.directories[stage.target := Interrupted])
    case WriteRequest =>
      if stage.Writing? then To(w, p, Leaving).(directories := w.directories[stage.target := Reserved]) else w
    case Fail =>
      if Inside(stage) then To(w, p, Leaving) else w
    case Release =>
      if stage == Leaving && w.lock == Some(p) then To(w, p, Idle).(lock := None) else w
    case Die =>
      if stage != Idle then To(w, p, Dead) else w
    case ClearStaleLock =>
      if w.lock.Some? && StageOf(w, w.lock.value) == Dead then w.(lock := None) else w
  }

  predicate Inside(s: Stage) { s.Checking? || s.Making? || s.Writing? || s == Leaving }

  /** The process that is between taking the lock and writing its request. */
  ghost predicate Sound(w: World, target: Key, checked: set<Key>) {
    forall k :: k in checked ==> k in w.directories && w.directories[k] == Reserved && Compatible(k, target)
  }

  ghost predicate StageSound(w: World, s: Stage) {
    match s
    case Checking(target, checked) => Sound(w, target, checked)
    case Making(target) => Sound(w, target, w.directories.Keys)
    case Writing(target) => target in w.directories && Sound(w, target, w.directories.Keys - {target})
                            && w.directories[target] == Interrupted
    case _ => true
  }

  ghost predicate Disjoint(w: World) {
    forall a, b :: a in w.directories && b in w.directories && a != b ==> Compatible(a, b)
  }

  ghost predicate Inv(w: World) {
    && Disjoint(w)
    && (forall p :: p in w.stages && Inside(w.stages[p]) ==> w.lock == Some(p) && StageSound(w, w.stages[p]))
    && (w.lock.Some? ==> w.lock.value in w.stages && w.stages[w.lock.value] != Idle)
  }

  lemma StepKeepsInv(w: World, p: Process, s: Step)
    requires Inv(w)
    ensures Inv(Next(w, p, s))
  {
  }

  function Play(run: seq<(Process, Step)>): World {
    if run == [] then World(None, map[], map[])
    else var n := |run| - 1; Next(Play(run[..n]), run[n].0, run[n].1)
  }

  /**
   * Over all interleavings and crashes: any two reservations of one campaign, finished or
   * interrupted, have disjoint products.
   */
  lemma {:induction false} ReservationsAreDisjoint(run: seq<(Process, Step)>)
    ensures Inv(Play(run))
    ensures forall a, b :: a in Play(run).directories && b in Play(run).directories && a != b ==>
                             a.campaign != b.campaign || a.items !! b.items
  {
    if run != [] {
      var n := |run| - 1;
      ReservationsAreDisjoint(run[..n]);
      StepKeepsInv(Play(run[..n]), run[n].0, run[n].1);
    }
  }

  /** An interrupted directory that no living process is about to complete. */
  ghost predicate Abandoned(w: World, k: Key) {
    && k in w.directories && w.directories[k] == Interrupted
    && forall p :: p in w.stages ==> !w.stages[p].Writing?
  }

  lemma AbandonedBlocksStep(w: World, p: Process, s: Step, k: Key)
    requires Inv(w) && Abandoned(w, k)
    ensures Abandoned(Next(w, p, s), k) && Next(w, p, s).directories == w.directories
  {
  }

  /** A crash inside a reservation holds every product of every campaign until it is reviewed. */
  lemma {:induction false} AbandonedBlocksAll(run: seq<(Process, Step)>, n: nat, k: Key)
    requires n <= |run| && Abandoned(Play(run[..n]), k)
    ensures Play(run).directories == Play(run[..n]).directories
    decreases |run| - n
  {
    if n == |run| {
      assert run[..n] == run;
    } else {
      assert run[..n + 1][..n] == run[..n];
      ReservationsAreDisjoint(run[..n]);
      AbandonedBlocksStep(Play(run[..n]), run[n].0, run[n].1, k);
      AbandonedBlocksAll(run, n + 1, k);
    }
  }
}
