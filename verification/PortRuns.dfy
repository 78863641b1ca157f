/**
 * Several sbnn processes at one port map: each locks, reads, changes, writes a
 * temporary file, renames it into place and unlocks, while others read the map
 * without the lock. A process may die anywhere.
 */
module PortRuns {
  import opened Prelude
  import opened PortMap

  type Pid = nat

  /** What a change comes back with: the port it gave, or an error. */
  type Outcome = Option<nat>

  datatype Process =
    | Idle
    | Waiting(change: Change)
    | Locked(change: Change)
    | HasRead(change: Change, before: Ports)
    | HasChanged(change: Change, before: Ports, after: Changed)
    | HasWritten(change: Change, before: Ports, after: Changed)
    | Closing(change: Change, outcome: Outcome)
    | Returned(change: Change, outcome: Outcome)

  /**
   * `locks` is whether the file system has locks to hand out: without them the
   * lock is skipped. `committed` are the maps the file has held, and `seen`
   * those that readers without the lock were given.
   */
  datatype World = World(locks: bool, file: File, processes: map<Pid, Process>, committed: seq<Ports>, seen: set<Ports>)

  datatype Action =
    | Ask(p: Pid, change: Change)
    | Lock(p: Pid)
    | LockFails(p: Pid)
    | Read(p: Pid)
    | Change(p: Pid)
    | Write(p: Pid, ok: bool)
    | Rename(p: Pid, ok: bool)
    | Unlock(p: Pid)
    | Die(p: Pid)
    | Peek

  function At(w: World, p: Pid): Process {
    if p in w.processes then w.processes[p] else Idle
  }

  predicate HoldsLock(s: Process) {
    s.Locked? || s.HasRead? || s.HasChanged? || s.HasWritten? || s.Closing?
  }

  ghost predicate LockIsFree(w: World) {
    forall p :: p in w.processes ==> !HoldsLock(w.processes[p])
  }

  ghost predicate Allowed(w: World, a: Action) {
    match a
    case Ask(p, _) => At(w, p).Idle? || At(w, p).Returned?
    case Lock(p) => At(w, p).Waiting? && (w.locks ==> LockIsFree(w))
    case LockFails(p) => At(w, p).Waiting?
    case Read(p) => At(w, p).Locked?
    case Change(p) => At(w, p).HasRead?
    case Write(p, _) => At(w, p).HasChanged?
    case Rename(p, _) => At(w, p).HasWritten?
    case Unlock(p) => At(w, p).Closing?
    case Die(p) => true
    case Peek => true
  }

  function Goes(w: World, p: Pid, s: Process): World {
    w.(processes := w.processes[p := s])
  }

  ghost function Next(w: World, a: Action): World
    requires Allowed(w, a)
  {
    match a
    case Ask(p, c) => Goes(w, p, Waiting(c))
    case Lock(p) => Goes(w, p, Locked(At(w, p).change))
    case LockFails(p) => Goes(w, p, Returned(At(w, p).change, None))
    case Read(p) =>
      var s := At(w, p);
      Goes(w, p, if Load(w.file).Some? then HasRead(s.change, Load(w.file).value) else Closing(s.change, None))
    case Change(p) =>
      var s := At(w, p);
      var r := Apply(s.change, s.before);
      Goes(w, p, if r.None? then Closing(s.change, None)
                 else if r.value.ports == s.before then Closing(s.change, Some(r.value.port))
                 else HasChanged(s.change, s.before, r.value))
    case Write(p, ok) =>
      var s := At(w, p);
      Goes(w, p, if ok then HasWritten(s.change, s.before, s.after) else Closing(s.change, None))
    case Rename(p, ok) =>
      var s := At(w, p);
      if ok then
        Goes(w, p, Closing(s.change, Some(s.after.port)))
          .(file := Holds(s.after.ports), committed := w.committed + [s.after.ports])
      else Goes(w, p, Closing(s.change, None))
    case Unlock(p) => Goes(w, p, Returned(At(w, p).change, At(w, p).outcome))
    case Die(p) => Goes(w, p, Idle)
    case Peek => if Load(w.file).Some? then w.(seen := w.seen + {Load(w.file).value}) else w
  }

  ghost function Run(w: World, actions: seq<Action>): Option<World>
    decreases |actions|
  {
    if |actions| == 0 then Some(w)
    else if !Allowed(w, actions[0]) then None
    else Run(Next(w, actions[0]), actions[1..])
  }

  // ----- What every step keeps -----

  /** What a process with the lock knows is so. */
  ghost predicate Knows(s: Process, file: File) {
    match s
    case HasRead(_, before) => Load(file) == Some(before)
    case HasChanged(c, before, after) => Load(file) == Some(before) && Apply(c, before) == Some(after)
    case HasWritten(c, before, after) => Load(file) == Some(before) && Apply(c, before) == Some(after)
    case _ => true
  }

  ghost predicate OneHolder(w: World) {
    forall p, q :: p in w.processes && q in w.processes && HoldsLock(w.processes[p]) && HoldsLock(w.processes[q]) ==> p == q
  }

  ghost predicate AllKnow(w: World) {
    forall p :: p in w.processes ==> Knows(w.processes[p], w.file)
  }

  ghost predicate FileGood(w: World) {
    Load(w.file).Some? ==> Good(Load(w.file).value.servers)
  }

  ghost predicate SeenCommitted(w: World) {
    && (Load(w.file).Some? ==> Load(w.file).value in w.committed)
    && forall m :: m in w.seen ==> m in w.committed
  }

  ghost predicate Inv(w: World) {
    w.locks && OneHolder(w) && AllKnow(w) && FileGood(w) && SeenCommitted(w)
  }

  ghost predicate Starts(w: World) {
    && w.locks && w.processes == map[] && w.seen == {} && FileGood(w)
    && w.committed == if Load(w.file).Some? then [Load(w.file).value] else []
  }

  lemma StartsInv(w: World)
    requires Starts(w)
    ensures Inv(w)
  {
  }

  /** One process moves and the file stays: it must not take a lock that another has, and must know what it claims. */
  lemma MoveKeeps(w: World, p: Pid, s: Process)
    requires Inv(w) && Knows(s, w.file)
    requires HoldsLock(s) ==> HoldsLock(At(w, p)) || LockIsFree(w)
    ensures Inv(Goes(w, p, s))
  {
    hide Knows, Good;
  }

  lemma RenameKeeps(w: World, p: Pid)
    requires Inv(w) && At(w, p).HasWritten?
    ensures Inv(Next(w, Rename(p, true)))
  {
    hide Apply, Good;
    var s := At(w, p);
    assert Knows(s, w.file);
    ApplyKeepsGood(s.change, s.before);
    var after := Next(w, Rename(p, true));
    forall q | q in after.processes ensures Knows(after.processes[q], after.file) {
      if q != p {
        assert !HoldsLock(w.processes[q]);
      }
    }
  }

  lemma StepKeeps(w: World, a: Action)
    requires Inv(w) && Allowed(w, a)
    ensures Inv(Next(w, a))
  {
    match a
    case Ask(p, c) => MoveKeeps(w, p, Waiting(c));
    case Lock(p) => MoveKeeps(w, p, Locked(At(w, p).change));
    case LockFails(p) => MoveKeeps(w, p, Returned(At(w, p).change, None));
    case Read(p) => MoveKeeps(w, p, At(Next(w, a), p));
    case Change(p) => ChangeKeeps(w, p);
    case Write(p, ok) => WriteKeeps(w, p, ok);
    case Rename(p, ok) =>
      if ok {
        RenameKeeps(w, p);
      } else {
        MoveKeeps(w, p, Closing(At(w, p).change, None));
      }
    case Unlock(p) => MoveKeeps(w, p, At(Next(w, a), p));
    case Die(p) => MoveKeeps(w, p, Idle);
    case Peek =>
  }

  lemma ChangeKeeps(w: World, p: Pid)
    requires Inv(w) && At(w, p).HasRead?
    ensures Inv(Next(w, Change(p)))
  {
    hide Apply;
    assert Knows(At(w, p), w.file);
    MoveKeeps(w, p, At(Next(w, Change(p)), p));
  }

  lemma WriteKeeps(w: World, p: Pid, ok: bool)
    requires Inv(w) && At(w, p).HasChanged?
    ensures Inv(Next(w, Write(p, ok)))
  {
    hide Apply;
    assert Knows(At(w, p), w.file);
    MoveKeeps(w, p, At(Next(w, Write(p, ok)), p));
  }

  lemma {:induction false} RunKeeps(w: World, actions: seq<Action>)
    requires Inv(w) && Run(w, actions).Some?
    ensures Inv(Run(w, actions).value)
    decreases |actions|
  {
    hide Inv, Allowed, Next;
    if |actions| > 0 {
      StepKeeps(w, actions[0]);
      RunKeeps(Next(w, actions[0]), actions[1..]);
    }
  }

  // ----- Over whole runs -----

  /** No two repositories ever share a port, and whoever reads the map without the lock reads one that was committed. */
  lemma NoPortIsShared(w: World, actions: seq<Action>, repo1: string, repo2: string)
    requires Starts(w) && Run(w, actions).Some? && repo1 != repo2
    ensures var end := Run(w, actions).value;
            && (Load(end.file).Some? ==>
                  PortOf(Load(end.file).value.servers, repo1).None?
                  || PortOf(Load(end.file).value.servers, repo1) != PortOf(Load(end.file).value.servers, repo2))
            && (forall m :: m in end.seen ==> m in end.committed)
  {
    hide Starts, Run, Good;
    StartsInv(w);
    RunKeeps(w, actions);
    var end := Run(w, actions).value;
    if Load(end.file).Some? && PortOf(Load(end.file).value.servers, repo1).Some? {
      PortsAreApart(Load(end.file).value.servers, repo1, repo2);
    }
  }

  /** The file as a step leaves it: as it was, or changed as a process with the lock asked. */
  ghost predicate Commits(w: World, a: Action) {
    a.Rename? && a.ok
  }

  lemma FileMoves(w: World, a: Action)
    requires Inv(w) && Allowed(w, a)
    ensures !Commits(w, a) ==> Next(w, a).file == w.file
    ensures Commits(w, a) ==>
              Load(w.file).Some? && Apply(At(w, a.p).change, Load(w.file).value).Some?
              && Next(w, a).file == Holds(Apply(At(w, a.p).change, Load(w.file).value).value.ports)
  {
    hide Apply;
    if Commits(w, a) {
      assert Knows(At(w, a.p), w.file);
    }
  }

  /** Nobody asks for this entry to be removed, and nobody is about to remove it. */
  ghost predicate Spared(w: World, e: Entry) {
    forall p :: p in w.processes && !w.processes[p].Idle? && w.processes[p].change.Removing? ==> e !in w.processes[p].change.gone
  }

  ghost predicate NotAsked(actions: seq<Action>, e: Entry) {
    forall k :: 0 <= k < |actions| && actions[k].Ask? && actions[k].change.Removing? ==> e !in actions[k].change.gone
  }

  ghost predicate Kept(w: World, e: Entry) {
    Load(w.file).Some? && PortOf(Load(w.file).value.servers, e.repository) == Some(e.port)
  }

  lemma SparedStep(w: World, a: Action, e: Entry)
    requires Spared(w, e) && Allowed(w, a) && NotAsked([a], e)
    ensures Spared(Next(w, a), e)
  {
    assert [a][0] == a;
    hide Apply, LockIsFree;
  }

  lemma KeptStep(w: World, a: Action, e: Entry)
    requires Inv(w) && Allowed(w, a) && Spared(w, e) && Kept(w, e)
    ensures Kept(Next(w, a), e)
  {
    hide Apply, Next, Good, Allowed;
    FileMoves(w, a);
    if Commits(w, a) {
      RenamesRead(w, a.p, a);
      ApplyKeepsPorts(At(w, a.p).change, Load(w.file).value, e.repository, e.port);
    }
  }

  lemma RenamesRead(w: World, p: Pid, a: Action)
    requires Allowed(w, a) && a.Rename? && a.p == p
    ensures p in w.processes && w.processes[p].HasWritten?
  {
  }

  /** A port stays its repository's until it is removed, whoever comes and goes. */
  lemma {:induction false} PortIsKept(w: World, actions: seq<Action>, e: Entry)
    requires Inv(w) && Run(w, actions).Some? && Spared(w, e) && NotAsked(actions, e) && Kept(w, e)
    ensures Kept(Run(w, actions).value, e)
    decreases |actions|
  {
    hide Inv, Allowed, Next, Spared, Kept;
    if |actions| > 0 {
      var a := actions[0];
      assert NotAsked([a], e);
      StepKeeps(w, a);
      KeptStep(w, a, e);
      SparedStep(w, a, e);
      PortIsKept(Next(w, a), actions[1..], e);
    }
  }

  // ----- What an assignment returns -----

  /** A process that comes back with a port for its repository. */
  predicate Gave(s: Process, repo: string, port: nat) {
    (s.Closing? || s.Returned?) && s.outcome == Some(port) && s.change.Assigning? && s.change.repo == repo
  }

  /** A port is given as the map has it at that moment: the repository's own, or the lowest free one from the base up. */
  lemma GivenPortIsLowest(w: World, a: Action, p: Pid, repo: string, port: nat)
    requires Inv(w) && Allowed(w, a) && !Gave(At(w, p), repo, port) && Gave(At(Next(w, a), p), repo, port)
    ensures At(w, p).HasRead? || At(w, p).HasWritten?
    ensures var c := At(w, p).change;
            && Load(w.file).Some? && c.Assigning?
            && Kept(Next(w, a), Entry(repo, port))
            && match PortOf(Load(w.file).value.servers, repo) {
                 case Some(had) => port == had && Next(w, a).file == w.file
                 case None =>
                   c.base <= port <= MAX_PORT && Free(Load(w.file).value.servers, c.usable, port)
                   && forall q :: c.base <= q < port ==> !Free(Load(w.file).value.servers, c.usable, q)
               }
  {
    hide Good, Free;
    assert a.Change? || a.Rename?;
    assert a.p == p;
    assert Knows(At(w, p), w.file);
    var c := At(w, p).change;
    AssignGives(c.repo, c.base, c.usable, Load(w.file).value);
  }

  /** With the map read, an assignment fails exactly when the repository has no port and none is free. */
  lemma NoFreePort(w: World, p: Pid)
    requires Inv(w) && At(w, p).HasRead? && At(w, p).change.Assigning?
    ensures var c := At(w, p).change;
            (At(Next(w, Change(p)), p) == Closing(c, None))
            <==> (PortOf(Load(w.file).value.servers, c.repo).None?
                  && forall q :: c.base <= q <= MAX_PORT ==> !Free(Load(w.file).value.servers, c.usable, q))
  {
    hide Free, Apply;
    assert Knows(At(w, p), w.file);
    var c := At(w, p).change;
    AssignGives(c.repo, c.base, c.usable, Load(w.file).value);
  }

  ghost predicate NothingRemoved(actions: seq<Action>) {
    forall k :: 0 <= k < |actions| ==> actions[k].Ask? ==> !actions[k].change.Removing?
  }

  ghost predicate GivenKept(w: World) {
    && (forall p, repo, port :: p in w.processes && Gave(w.processes[p], repo, port) ==> Kept(w, Entry(repo, port)))
    && forall p :: p in w.processes && !w.processes[p].Idle? ==> !w.processes[p].change.Removing?
  }

  lemma GivenStep(w: World, a: Action)
    requires Inv(w) && Allowed(w, a) && GivenKept(w) && NothingRemoved([a])
    ensures GivenKept(Next(w, a))
  {
    hide Inv, Allowed, Next, Gave, Kept;
    var after := Next(w, a);
    NoneRemoves(w, a);
    forall p, repo, port | p in after.processes && Gave(after.processes[p], repo, port) ensures Kept(after, Entry(repo, port)) {
      if Gave(At(w, p), repo, port) {
        GaveIsThere(w, p, repo, port);
        KeptStep(w, a, Entry(repo, port));
      } else {
        GivenPortIsLowest(w, a, p, repo, port);
      }
    }
  }

  lemma GaveIsThere(w: World, p: Pid, repo: string, port: nat)
    requires Gave(At(w, p), repo, port)
    ensures p in w.processes
  {
  }

  lemma NoneRemoves(w: World, a: Action)
    requires Allowed(w, a) && NothingRemoved([a])
    requires forall p :: p in w.processes && !w.processes[p].Idle? ==> !w.processes[p].change.Removing?
    ensures var after := Next(w, a);
            forall p :: p in after.processes && !after.processes[p].Idle? ==> !after.processes[p].change.Removing?
  {
    assert [a][0] == a;
    hide Apply, LockIsFree;
  }

  lemma {:induction false} GivenRun(w: World, actions: seq<Action>)
    requires Inv(w) && Run(w, actions).Some? && GivenKept(w) && NothingRemoved(actions)
    ensures GivenKept(Run(w, actions).value)
    decreases |actions|
  {
    hide Inv, Allowed, Next, GivenKept;
    if |actions| > 0 {
      var a := actions[0];
      assert NothingRemoved([a]);
      StepKeeps(w, a);
      GivenStep(w, a);
      GivenRun(Next(w, a), actions[1..]);
    }
  }

  /**
   * While nothing is removed, any two processes that came back with a port,
   * however they interleaved and whoever died, have the same port exactly
   * when they asked for the same repository.
   */
  lemma PortsGivenAreApart(w: World, actions: seq<Action>, p: Pid, q: Pid, repo1: string, port1: nat, repo2: string, port2: nat)
    requires Starts(w) && Run(w, actions).Some? && NothingRemoved(actions)
    requires Gave(At(Run(w, actions).value, p), repo1, port1) && Gave(At(Run(w, actions).value, q), repo2, port2)
    ensures port1 == port2 <==> repo1 == repo2
  {
    StartsInv(w);
    assert GivenKept(w);
    hide Starts, Run, Good, Gave, GivenKept;
    GivenRun(w, actions);
    RunKeeps(w, actions);
    var end := Run(w, actions).value;
    GaveIsKept(end, p, repo1, port1);
    GaveIsKept(end, q, repo2, port2);
    if repo1 != repo2 {
      PortsAreApart(Load(end.file).value.servers, repo1, repo2);
    }
  }

  lemma GaveIsKept(w: World, p: Pid, repo: string, port: nat)
    requires GivenKept(w) && Gave(At(w, p), repo, port)
    ensures Kept(w, Entry(repo, port))
  {
    GaveIsThere(w, p, repo, port);
  }

  // ----- Where there are no locks -----

  const UNLOCKED := World(false, Missing, map[], [NO_PORTS], {})

  const BOTH_READ: seq<Action> :=
    [Ask(1, Assigning("a", 6275, None)), Ask(2, Assigning("b", 6275, None)), Lock(1), Lock(2), Read(1), Read(2)]

  const BOTH_WRITE: seq<Action> := [Change(1), Change(2), Write(1, true), Write(2, true)]

  const BOTH_RENAME: seq<Action> := [Rename(1, true), Rename(2, true), Unlock(1), Unlock(2)]

  lemma BothRead()
    ensures Run(UNLOCKED, BOTH_READ).Some?
    ensures Run(UNLOCKED, BOTH_READ).value
         == UNLOCKED.(processes := map[1 := HasRead(Assigning("a", 6275, None), NO_PORTS), 2 := HasRead(Assigning("b", 6275, None), NO_PORTS)])
  {
  }

  lemma BothWrite(w: World)
    requires w == UNLOCKED.(processes := map[1 := HasRead(Assigning("a", 6275, None), NO_PORTS), 2 := HasRead(Assigning("b", 6275, None), NO_PORTS)])
    ensures Run(w, BOTH_WRITE).Some?
    ensures var end := Run(w, BOTH_WRITE).value;
            && At(end, 1) == HasWritten(Assigning("a", 6275, None), NO_PORTS, Changed(Ports([Entry("a", 6275)], []), 6275))
            && At(end, 2) == HasWritten(Assigning("b", 6275, None), NO_PORTS, Changed(Ports([Entry("b", 6275)], []), 6275))
  {
  }

  lemma BothRename(w: World)
    requires At(w, 1) == HasWritten(Assigning("a", 6275, None), NO_PORTS, Changed(Ports([Entry("a", 6275)], []), 6275))
    requires At(w, 2) == HasWritten(Assigning("b", 6275, None), NO_PORTS, Changed(Ports([Entry("b", 6275)], []), 6275))
    ensures Run(w, BOTH_RENAME).Some?
    ensures var end := Run(w, BOTH_RENAME).value;
            Gave(At(end, 1), "a", 6275) && Gave(At(end, 2), "b", 6275)
  {
  }

  lemma {:induction false} RunConcat(w: World, first: seq<Action>, then_: seq<Action>)
    requires Run(w, first).Some?
    ensures Run(w, first + then_) == Run(Run(w, first).value, then_)
    decreases |first|
  {
    hide Allowed, Next;
    if |first| == 0 {
      assert first + then_ == then_;
    } else {
      assert (first + then_)[1..] == first[1..] + then_;
      RunConcat(Next(w, first[0]), first[1..], then_);
    }
  }

  const BOTH_AT_ONCE := BOTH_READ + BOTH_WRITE + BOTH_RENAME

  /** Where the file system has no locks to hand out, two repositories can be given one port: the hypothesis is needed. */
  lemma WithoutLocksPortsCollide()
    ensures Run(UNLOCKED, BOTH_AT_ONCE).Some? && NothingRemoved(BOTH_AT_ONCE)
    ensures var end := Run(UNLOCKED, BOTH_AT_ONCE).value;
            Gave(At(end, 1), "a", 6275) && Gave(At(end, 2), "b", 6275)
  {
    hide Run, Gave;
    BothRead();
    BothWrite(Run(UNLOCKED, BOTH_READ).value);
    BothRename(Run(Run(UNLOCKED, BOTH_READ).value, BOTH_WRITE).value);
    RunConcat(UNLOCKED, BOTH_READ, BOTH_WRITE);
    RunConcat(UNLOCKED, BOTH_READ + BOTH_WRITE, BOTH_RENAME);
  }
}
