/**
 * The store: a session in memory, changed in place and made durable before
 * the change is answered. The disk may fail, and the process may stop, at any
 * byte of an append and at any step of a snapshot.
 */
module Stores {
  import opened Prelude
  import opened Session
  import opened SessionIds
  import opened SessionFile
  import opened Recovery
  import opened SessionThreads
  import SessionCodec
  import Decimal
  import Ops = SessionOps
  import Edits = SessionEdits
  import opened SessionLoops
  import opened Steps
  import Naming = SessionNames
  import Threads
  import Pruning = Prune

  /** What an append can leave behind: the file as it was, or with any part of the line after it. */
  ghost predicate LeftByAppend(before: Option<string>, line: string, after: Option<string>) {
    after == before
    || (before.Some? && after.Some?
        && before.value <= after.value && Torn(after.value[|before.value|..], line))
  }

  /** What a replacement can leave behind: the file as it was, or the new one. */
  predicate LeftByReplace(before: Option<string>, file: string, after: Option<string>) {
    after == before || after == Some(file)
  }

  /** The session file. It outlives the store. */
  class Disk {
    var content: Option<string>
    /** Every content the file has had, or would have been left with had the process stopped. */
    ghost var seen: iset<Option<string>>

    constructor (content: Option<string>)
      ensures this.content == content && seen == iset{}
    {
      this.content := content;
      seen := iset{};
    }

    /** Open without O_CREATE, write, sync, close: any of them may fail. */
    method Append(line: string) returns (ok: bool)
      modifies this
      ensures ok ==> old(content).Some? && content == Some(old(content).value + line)
      ensures !ok ==> LeftByAppend(old(content), line, content)
      ensures seen == old(seen) + iset c | LeftByAppend(old(content), line, c)
    {
      seen := seen + iset c | LeftByAppend(content, line, c);
      if content.None? {
        return false;
      }
      ok := *;
      if ok {
        content := Some(content.value + line);
      } else {
        var n: int := *;
        var written := if 0 <= n <= |line| then line[..n] else "";
        assert (content.value + written)[|content.value|..] == written;
        content := Some(content.value + written);
      }
    }

    /** Write a temporary file, sync it, rename it over: the file is the old one or the new one. */
    method Replace(file: string) returns (ok: bool)
      modifies this
      ensures content == if ok then Some(file) else old(content)
      ensures seen == old(seen) + iset c | LeftByReplace(old(content), file, c)
    {
      seen := seen + iset c | LeftByReplace(content, file, c);
      ok := *;
      if ok {
        content := Some(file);
      }
    }

    /** Rename the file aside. */
    method SetAside() returns (ok: bool)
      modifies this
      ensures content == if ok then None else old(content)
      ensures seen == old(seen)
    {
      ok := *;
      if ok {
        content := None;
      }
    }
  }

  /** A file that stands for one of the states from ack on. */
  ghost predicate Recovers(content: Option<string>, history: seq<State>, ack: nat) {
    exists k :: ack <= k < |history| && Same(LoadsTo(content), history[k])
  }

  /** A file that stands for st and that a record may be appended to. */
  ghost predicate Agrees(content: Option<string>, st: State) {
    content.Some? && Appendable(content.value) && Readable(content.value) && Same(LoadsTo(content), st)
  }

  /** A file that can be read and names the repository. */
  ghost predicate Intact(content: Option<string>, repository: Option<string>) {
    content.Some? && Readable(content.value) && RepositoryOf(content) == repository
  }

  lemma AgreesIsIntact(content: Option<string>, st: State, repository: Option<string>)
    requires Agrees(content, st) && RepositoryOf(content) == repository
    ensures Intact(content, repository)
  {
    hide Readable, RepositoryOf, LoadsTo, Appendable;
  }

  lemma SameIsTransitive(a: State, b: State, c: State)
    requires Same(a, b) && Same(b, c)
    ensures Same(a, c)
  {
  }

  /** Whatever an append leaves stands for the session before the change or after it. */
  lemma LeftLoads(b: string, rec: Record, before: State, after: State, left: Option<string>)
    requires Agrees(Some(b), before) && !rec.op.OpUnknown?
    requires Ops.Replays(before, rec, after)
    requires LeftByAppend(Some(b), Line(Ops.Stamped(rec, after)), left)
    ensures Same(LoadsTo(left), before) || Same(LoadsTo(left), after)
  {
    hide Line, Torn, Appendable, Readable, LoadsTo, Same, Ops.Replays;
    var line := Line(Ops.Stamped(rec, after));
    if left != Some(b) {
      var t := left.value[|b|..];
      assert left.value == b + t;
      if t == line {
        WholeLoads(b, rec, before, after);
      } else {
        TornLoads(b, Ops.Stamped(rec, after), t);
      }
    }
  }

  lemma WholeLoads(b: string, rec: Record, before: State, after: State)
    requires Agrees(Some(b), before) && !rec.op.OpUnknown?
    requires Ops.Replays(before, rec, after)
    ensures Agrees(Some(b + Line(Ops.Stamped(rec, after))), after)
  {
    hide Line, Appendable, Readable, LoadsTo, Apply;
    ApplySame(LoadsTo(Some(b)), before, Ops.Stamped(rec, after));
    AppendLoads(b, Ops.Stamped(rec, after));
  }

  lemma SnapshotAgrees(st: State, repository: Option<string>)
    requires Inv(st)
    ensures Agrees(Some(SnapshotFile(st, repository)), st)
  {
    SnapshotLoads(st, repository);
  }

  ghost predicate AllNamed(history: seq<State>) {
    forall k :: 0 <= k < |history| ==> Named(history[k].groups)
  }

  lemma SnapshotIsIntact(st: State, repository: Option<string>)
    requires Inv(st)
    ensures Intact(Some(SnapshotFile(st, repository)), repository)
  {
    hide Inv, Agrees, RepositoryOf, SnapshotFile;
    SnapshotAgrees(st, repository);
    SnapshotNamesRepository(st, repository);
    AgreesIsIntact(Some(SnapshotFile(st, repository)), st, repository);
  }

  const DEFAULT_COMPACT_MIN := 0x10_0000

  class Store {
    const disk: Disk
    /** False for a store that keeps nothing, which is what tests use. */
    const hasPath: bool
    const compactMin: nat

    var groups: seq<Group>
    var ids: Counters
    var rounds: Counters
    var repository: Option<string>

    var snapBytes: nat
    var logBytes: nat
    var dirty: bool
    var sealed: bool
    /** The last save failed. */
    var failing: bool

    /** The session after each step so far. */
    ghost var history: seq<State>
    /** The last step that was saved without an error. */
    ghost var acked: nat
    /** Every id handed out, and the numbers of the default round titles each group that lives was given. */
    ghost var handed: set<string>
    ghost var titled: map<string, set<nat>>
    /** What had been handed out at each step of the history. */
    ghost var past: seq<Handed>
    /** Every group of every step has a name that can be used. */
    ghost var named: bool

    /** Bytes appended, snapshots written because the log outgrew the last one, and their size. */
    ghost var appended: nat
    ghost var compactions: nat
    ghost var compacted: nat
    /** No such snapshot was larger than the snapshot and the log it replaced. */
    ghost var economical: bool

    ghost function Current(): State
      reads this
    {
      State(groups, ids, rounds)
    }

    predicate Persisting()
      reads this`sealed
    {
      hasPath && !sealed
    }

    /** The next save appends its record; otherwise it writes a snapshot. */
    predicate Appends()
      reads this`dirty, this`snapBytes, this`logBytes
    {
      !dirty && snapBytes > 0 && logBytes <= Max(snapBytes, compactMin)
    }

    /**
     * The file stands for a step no older than the last one acknowledged; and
     * it stands for the session in memory exactly, unless the next save is
     * going to write a snapshot.
     */
    ghost predicate Durable(st: State)
      reads this`history, this`acked, this`sealed, this`dirty, this`snapBytes, this`logBytes, this`repository, disk
    {
      && acked < |history|
      && Same(history[|history| - 1], st)
      && (Persisting() ==> Recovers(disk.content, history, acked))
      && (Persisting() && Appends() ==> Agrees(disk.content, st))
      && (Persisting() ==> Bound())
    }

    /** A file that is still written to can be read, and names the repository of the session. */
    ghost predicate Bound()
      reads this`dirty, this`snapBytes, this`repository, disk
    {
      !dirty && snapBytes > 0 ==> Intact(disk.content, repository)
    }

    /** The last step is in the file, and nothing is waiting to be written. */
    ghost predicate Saved()
      reads this`acked, this`history, this`dirty, this`snapBytes
    {
      acked == |history| - 1 && !dirty && snapBytes > 0
    }

    /** Compaction is paid for by the bytes appended. */
    ghost predicate Books()
      reads this`compactions, this`logBytes, this`appended, this`economical, this`compacted
    {
      BooksWith(logBytes)
    }

    ghost predicate BooksWith(log: nat)
      reads this`compactions, this`appended, this`economical, this`compacted
    {
      && compactions * (compactMin + 1) + log <= appended
      && (economical ==> compacted + 2 * log + compactions <= 2 * appended)
    }

    /** No id and no default title can come again, and each step knows what had been handed out up to it. */
    ghost predicate Past()
      reads this
    {
      PastFor(Current())
    }

    ghost predicate PastFor(st: State)
      reads this`handed, this`titled, this`history, this`past, this`named
    {
      && PastOf(handed, titled, st)
      && StepsOf(history, past, handed, st.ids)
      && (named ==> AllNamed(history) && Named(st.groups))
    }

    /** A change that hands out nothing and names no group keeps what is past. */
    lemma PastMoves(st: State)
      requires PastFor(st) && st.ids == ids && st.rounds == rounds && (named ==> Named(groups))
      ensures Past()
    {
      hide HandedOut, StepsOf, Named, AllNamed;
    }

    /** The last step is the present. */
    ghost predicate Recorded()
      reads this`past, this`handed, this`titled
    {
      |past| > 0 && past[|past| - 1] == Handed(handed, titled)
    }

    ghost predicate Valid()
      reads this, disk
    {
      Inv(Current()) && Durable(Current()) && Books() && Past() && Recorded()
    }

    /** What Valid says of the file, for the session before a change that is being made. */
    ghost predicate Ready(st: State)
      reads this`history, this`acked, this`sealed, this`dirty, this`snapBytes, this`logBytes, this`repository
      reads this`compactions, this`appended, this`economical, this`compacted, disk
    {
      Durable(st) && Books()
    }

    /** A change begins with these, and Persist makes a valid store of them. */
    lemma Begins()
      requires Valid()
      ensures Inv(Current()) && Ready(Current()) && Past() && Recorded()
      ensures Kept(history, acked, disk.seen)
      ensures named ==> Named(groups)
    {
      hide Inv, Durable, Books, PastOf, StepsOf, AllNamed, Named, Recorded, Recovers;
    }

    /** A store that holds nothing and has handed out nothing. */
    ghost predicate IsNew()
      reads this
    {
      && Current() == EMPTY && repository == None
      && !sealed && !dirty && snapBytes == 0 && logBytes == 0
      && history == [EMPTY] && past == [NOTHING] && named && acked == 0
      && handed == {} && titled == map[]
      && appended == compactions == compacted == 0
    }

    /** Since then: no step was forgotten, and stopping at any moment left a file for a step not older than ack. */
    ghost predicate Kept(steps: seq<State>, ack: nat, before: iset<Option<string>>)
      reads this`history, this`acked, disk
    {
      && steps <= history
      && ack <= acked
      && forall c :: c in disk.seen && c !in before ==> Recovers(c, history, ack)
    }

    constructor (disk: Disk, hasPath: bool, compactMin: nat)
      ensures this.disk == disk && this.hasPath == hasPath && this.compactMin == compactMin
      ensures IsNew()
      ensures hasPath && LoadsTo(disk.content) == EMPTY ==> Valid()
      ensures !hasPath ==> Valid()
    {
      this.disk, this.hasPath, this.compactMin := disk, hasPath, compactMin;
      groups, ids, rounds, repository := [], map[], map[], None;
      snapBytes, logBytes, dirty, sealed, failing := 0, 0, false, false, false;
      history, past, named, acked, handed, titled := [EMPTY], [NOTHING], true, 0, {}, map[];
      appended, compactions, compacted, economical := 0, 0, 0, true;
      new;
      hide LoadsTo, Valid;
      if !hasPath || LoadsTo(disk.content) == EMPTY {
        NewIsValid();
      }
    }

    lemma NewIsValid()
      requires IsNew() && (hasPath ==> LoadsTo(disk.content) == EMPTY)
      ensures Valid()
    {
      EmptyInv();
      OneStep(EMPTY, {}, map[]);
      hide Inv, StepsOf, LoadsTo, HandedOut, Agrees, RepositoryOf;
      assert hasPath ==> Same(LoadsTo(disk.content), history[0]);
    }

    // ----- Saving -----

    /** appendRecord. */
    method AppendRecord(rec: Record, ghost before: State) returns (ok: bool)
      requires disk.content.Some? && Agrees(disk.content, before) && !rec.op.OpUnknown?
      requires Ops.Replays(before, rec, Current())
      modifies this`logBytes, this`appended, disk
      ensures ok ==> Agrees(disk.content, Current()) && Intact(disk.content, RepositoryOf(old(disk.content)))
      ensures Same(LoadsTo(disk.content), before) || Same(LoadsTo(disk.content), Current())
      ensures forall c :: c in disk.seen && c !in old(disk.seen) ==>
                Same(LoadsTo(c), before) || Same(LoadsTo(c), Current())
      ensures var n := if ok then |Line(Ops.Stamped(rec, Current()))| else 0;
              logBytes == old(logBytes) + n && appended == old(appended) + n
      ensures ok ==> disk.content == Some(old(disk.content).value + Line(Ops.Stamped(rec, Current())))
      ensures old(disk.seen) <= disk.seen
      ensures forall c :: LeftByAppend(old(disk.content), Line(Ops.Stamped(rec, Current())), c) ==> c in disk.seen
    {
      hide Line, LoadsTo, Agrees, Same, Ops.Replays, LeftByAppend, RepositoryOf, Intact;
      ghost var b := disk.content.value;
      var line := Line(rec.(seqs := ids, rounds := rounds));
      assert line == Line(Ops.Stamped(rec, Current()));
      ok := disk.Append(line);
      if ok {
        logBytes := logBytes + |line|;
        appended := appended + |line|;
        WholeLoads(b, rec, before, Current());
        AgreesMeans(disk.content, Current());
        AppendableNamesRepository(b, before, Ops.Stamped(rec, Current()));
        AgreesIsIntact(disk.content, Current(), RepositoryOf(old(disk.content)));
      } else {
        LeftLoads(b, rec, before, Current(), disk.content);
      }
      forall c | c in disk.seen && c !in old(disk.seen)
        ensures Same(LoadsTo(c), before) || Same(LoadsTo(c), Current())
      {
        LeftLoads(b, rec, before, Current(), c);
      }
    }

    static lemma AppendableNamesRepository(b: string, st: State, rec: Record)
      requires Agrees(Some(b), st) && !rec.op.OpUnknown?
      ensures RepositoryOf(Some(b + Line(rec))) == RepositoryOf(Some(b))
    {
      hide LoadsTo, RepositoryOf, Line, Appendable;
      AppendNamesRepository(b, rec);
    }

    static lemma AgreesMeans(content: Option<string>, st: State)
      requires Agrees(content, st)
      ensures content.Some? && Same(LoadsTo(content), st)
    {
    }

    /** write. */
    method Write() returns (ok: bool)
      requires Inv(Current())
      modifies this`snapBytes, this`logBytes, this`dirty, disk
      ensures disk.content == if ok then Some(SnapshotFile(Current(), repository)) else old(disk.content)
      ensures disk.seen == old(disk.seen) + iset c | LeftByReplace(old(disk.content), SnapshotFile(Current(), repository), c)
      ensures ok ==> Appends() && logBytes == 0 && snapBytes == |SnapshotFile(Current(), repository)|
      ensures !ok ==> snapBytes == old(snapBytes) && logBytes == old(logBytes) && dirty == old(dirty)
    {
      hide Inv;
      var file := SnapshotFile(State(groups, ids, rounds), repository);
      ok := disk.Replace(file);
      if ok {
        snapBytes, logBytes, dirty := |file|, 0, false;
      }
    }

    /** save. `before` is the session as it was before the change. */
    method Save(rec: Option<Record>, ghost before: State) returns (ok: bool)
      requires Inv(Current()) && Books()
      requires acked + 1 < |history| && history[|history| - 1] == Current() && Same(history[|history| - 2], before)
      requires Recovers(disk.content, history, acked)
      requires Appends() ==> Agrees(disk.content, before)
      requires Bound()
      requires rec.Some? ==> !rec.value.op.OpUnknown? && Ops.Replays(before, rec.value, Current())
      modifies this`snapBytes, this`logBytes, this`dirty
      modifies this`appended, this`compactions, this`compacted, this`economical
      modifies disk
      ensures Recovers(disk.content, history, acked)
      ensures ok || (rec.Some? && Appends()) ==> Agrees(disk.content, Current())
      ensures forall c :: c in disk.seen && c !in old(disk.seen) ==> Recovers(c, history, acked)
      ensures Books()
      ensures Bound() && (ok ==> !dirty && snapBytes > 0)
      // The log is never more than one record past the size that has the next save fold it.
      ensures ok && rec.Some? ==> logBytes <= Max(snapBytes, compactMin) + |Line(Ops.Stamped(rec.value, Current()))|
      // A file fit for it is appended to, and written anew only if that fails.
      ensures rec.Some? && old(Appends()) ==>
                forall c :: LeftByAppend(old(disk.content), Line(Ops.Stamped(rec.value, Current())), c) ==> c in disk.seen
      ensures appended != old(appended) ==>
                rec.Some? && old(Appends()) && old(disk.content).Some?
                && disk.content == Some(old(disk.content).value + Line(Ops.Stamped(rec.value, Current())))
      ensures ok && appended == old(appended) ==> disk.content == Some(SnapshotFile(Current(), repository))
      // One that was past it is folded.
      ensures ok && old(logBytes) > Max(old(snapBytes), compactMin) ==> logBytes == 0
    {
      hide Inv, LoadsTo, Agrees, Line, LeftByAppend, SnapshotFile, Ops.Replays, Recovers, RepositoryOf, Readable;
      if Appends() {
        AgreesMeans(disk.content, before);
      }
      if rec.None? || dirty || snapBytes == 0 || logBytes > Max(snapBytes, compactMin) {
        ok := Fold();
        return;
      }
      label appending:
      LineIsSome(Ops.Stamped(rec.value, Current()));
      ok := AppendRecord(rec.value, before);
      forall c | c == disk.content || (c in disk.seen && c !in old(disk.seen))
        ensures Recovers(c, history, acked)
      {
        EitherRecovers(c, before, history, acked);
      }
      if !ok {
        dirty := true;
        ok := Fold();
      }
    }

    /** A whole snapshot, which is written because the file cannot be appended to or the log outgrew it. */
    method Fold() returns (ok: bool)
      requires Inv(Current()) && Books()
      requires acked < |history| && history[|history| - 1] == Current()
      requires Recovers(disk.content, history, acked)
      modifies this`snapBytes, this`logBytes, this`dirty, this`compactions, this`compacted, this`economical, disk
      ensures Recovers(disk.content, history, acked)
      ensures forall c :: c in disk.seen && c !in old(disk.seen) ==> Recovers(c, history, acked)
      ensures Books()
      ensures if ok then Appends() && logBytes == 0 && Agrees(disk.content, Current()) && Intact(disk.content, repository)
              else snapBytes == old(snapBytes) && logBytes == old(logBytes) && dirty == old(dirty) && disk.content == old(disk.content)
      ensures (ok ==> disk.content == Some(SnapshotFile(Current(), repository))) && old(disk.seen) <= disk.seen
    {
      hide Inv, LoadsTo, Agrees, Recovers, Intact, SnapshotFile, BooksWith;
      ghost var file := SnapshotFile(Current(), repository);
      ghost var due := !dirty && snapBytes > 0 && logBytes > Max(snapBytes, compactMin);
      ghost var snap, log := snapBytes, logBytes;
      SnapshotAgrees(Current(), repository);
      SnapshotIsIntact(Current(), repository);
      AgreesRecovers(Some(file), Current(), history, acked);
      ok := Write();
      if ok {
        Charge(due, snap, log, |file|);
      }
    }

    /** A log that was folded because it outgrew its snapshot is one compaction more. */
    ghost method Charge(due: bool, snap: nat, log: nat, size: nat)
      requires BooksWith(log) && logBytes == 0 && (due ==> log > Max(snap, compactMin))
      modifies this`compactions, this`compacted, this`economical
      ensures Books()
    {
      if due {
        CompactionIsPaid(compactions, compactMin, log);
        compactions, compacted, economical :=
          compactions + 1, compacted + size, economical && size <= snap + log;
      }
    }

    static lemma LineIsSome(rec: Record)
      requires !rec.op.OpUnknown?
      ensures |Line(rec)| > 0
    {
      LineReads(rec);
    }

    static lemma EitherRecovers(c: Option<string>, before: State, history: seq<State>, ack: nat)
      requires ack + 1 < |history| && Same(history[|history| - 2], before)
      requires Same(LoadsTo(c), before) || Same(LoadsTo(c), history[|history| - 1])
      ensures Recovers(c, history, ack)
    {
      hide LoadsTo;
      if Same(LoadsTo(c), before) {
        SameIsTransitive(LoadsTo(c), before, history[|history| - 2]);
      }
    }

    static lemma AgreesRecovers(content: Option<string>, st: State, history: seq<State>, ack: nat)
      requires Agrees(content, st) && ack < |history| && history[|history| - 1] == st
      ensures Recovers(content, history, ack)
    {
      hide LoadsTo;
    }

    static lemma CompactionIsPaid(n: nat, min: nat, log: nat)
      requires log > min
      ensures (n + 1) * (min + 1) <= n * (min + 1) + log
    {
    }

    /** persist: the change is made durable before it is answered, and a failure is kept for PersistError. */
    method Persist(rec: Record, ghost before: State)
      requires Inv(Current()) && Ready(before) && Past()
      requires !rec.op.OpUnknown? && Ops.Replays(before, rec, Current())
      modifies this`snapBytes, this`logBytes, this`dirty, this`failing, this`history, this`past, this`acked
      modifies this`appended, this`compactions, this`compacted, this`economical
      modifies disk
      ensures Valid() && history == old(history) + [Current()]
      ensures Kept(old(history), old(acked), old(disk.seen))
      ensures Persisting() ==> (Saved() <==> !failing)
    {
      hide Inv, LoadsTo, Agrees, Ops.Replays, Recovers, PastFor, Intact, Books;
      Record();
      if !hasPath || sealed {
        return;
      }
      RecoversLater(disk.content, old(history), history, acked);
      Commit(rec, before);
    }

    /** The last step is saved, or the failure is kept. */
    method Commit(rec: Record, ghost before: State)
      requires Persisting() && Inv(Current()) && Books()
      requires acked + 1 < |history| && history[|history| - 1] == Current() && Same(history[|history| - 2], before)
      requires Recovers(disk.content, history, acked) && Bound() && (Appends() ==> Agrees(disk.content, before))
      requires !rec.op.OpUnknown? && Ops.Replays(before, rec, Current())
      modifies this`snapBytes, this`logBytes, this`dirty, this`failing, this`acked
      modifies this`appended, this`compactions, this`compacted, this`economical
      modifies disk
      ensures Durable(Current()) && Books() && old(acked) <= acked
      ensures forall c :: c in disk.seen && c !in old(disk.seen) ==> Recovers(c, history, old(acked))
      ensures Saved() <==> !failing
    {
      hide Inv, LoadsTo, Agrees, Ops.Replays, Recovers, Bound, Books, Durable, Line, Same;
      var ok := Save(Some(rec), before);
      failing := !ok;
      Acknowledge(ok);
      NowDurable();
    }

    lemma NowDurable()
      requires acked < |history| && history[|history| - 1] == Current()
      requires Recovers(disk.content, history, acked) && Bound() && (Appends() ==> Agrees(disk.content, Current()))
      ensures Durable(Current())
    {
      hide LoadsTo, Recovers, Agrees, Intact;
    }

    /** One step more. */
    ghost method Record()
      requires Inv(Current()) && Past()
      modifies this`history, this`past
      ensures Past() && Recorded()
      ensures history == old(history) + [Current()]
    {
      hide Inv, HandedOut, StepsOf, PastOf, Named;
      StepsSnoc(history, past, handed, titled, Current());
      history, past := history + [Current()], past + [Handed(handed, titled)];
    }

    /** A change that was saved is one that is kept. */
    ghost method Acknowledge(ok: bool)
      requires acked < |history| && history[|history| - 1] == Current()
      requires Recovers(disk.content, history, acked)
      requires ok || Appends() ==> Agrees(disk.content, Current())
      modifies this`acked
      ensures old(acked) <= acked < |history|
      ensures Recovers(disk.content, history, acked)
      ensures acked == if ok then |history| - 1 else old(acked)
    {
      hide LoadsTo, Agrees, Recovers;
      if ok {
        acked := |history| - 1;
        AgreesRecovers(disk.content, Current(), history, acked);
      }
    }

    static lemma RecoversLater(c: Option<string>, steps: seq<State>, more: seq<State>, ack: nat)
      requires Recovers(c, steps, ack) && steps <= more
      ensures Recovers(c, more, ack)
    {
      hide LoadsTo;
      var k :| ack <= k < |steps| && Same(LoadsTo(c), steps[k]);
      assert more[k] == steps[k];
    }

    // ----- Counters -----

    /** nextID. */
    method NextID(prefix: string) returns (id: string)
      modifies this`ids
      ensures id == NextId(old(ids), prefix) && ids == Bump(old(ids), prefix)
    {
      ids := ids[prefix := Count(ids, prefix) + 1];
      id := prefix + Decimal.Digits(Count(ids, prefix));
    }

    /** The id is new, and is remembered. */
    method HandOut(prefix: string) returns (id: string)
      requires Past() && prefix in {DIFF_PREFIX, COMMENT_PREFIX, HOOK_PREFIX}
      modifies this`ids, this`handed
      ensures Past() && id == NextId(old(ids), prefix) && ids == Bump(old(ids), prefix)
      ensures id !in old(handed) && handed == old(handed) + {id}
    {
      hide HandedOut, NextId, Bump, StepsOf, Named, AllNamed;
      NewId(handed, ids, prefix);
      StepsBump(history, past, handed, ids, prefix);
      id := NextID(prefix);
      handed := handed + {id};
    }

    /** nextRound. */
    method NextRound(group: string) returns (round: nat)
      modifies this`rounds
      ensures round == Count(old(rounds), group) + 1 && rounds == Bump(old(rounds), group)
    {
      rounds := rounds[group := Count(rounds, group) + 1];
      round := rounds[group];
    }

    /** The id that comes next was given to no one, and everyone's id stays below its counter. */
    static lemma NewId(handed: set<string>, ids: Counters, prefix: string)
      requires prefix in {DIFF_PREFIX, COMMENT_PREFIX, HOOK_PREFIX}
      requires forall id :: id in handed ==> HandedOut(id, ids)
      ensures NextId(ids, prefix) !in handed
      ensures forall id :: id in handed + {NextId(ids, prefix)} ==> HandedOut(id, Bump(ids, prefix))
    {
      NextIdIsNew(ids, prefix);
      forall id | id in handed
        ensures HandedOut(id, Bump(ids, prefix))
      {
        HandedOutBump(id, ids, prefix);
      }
    }

    ghost function Titles(group: string): set<nat>
      reads this
    {
      if group in titled then titled[group] else {}
    }

    // ----- Diffs -----

    /** What AddDiff does to the session in memory. */
    method PutDiff(group: string, d: Diff, now: nat) returns (stored: Diff)
      requires Past()
      modifies this`groups, this`ids, this`rounds, this`handed, this`titled, this`named
      ensures Past() && named == (old(named) && ValidName(group))
      ensures Current() == Ops.AddDiff(old(Current()), group, d, now)
      ensures stored == Ops.StoredDiff(old(Current()), group, d, now)
      ensures stored.id !in old(handed) && handed == old(handed) + {stored.id}
      ensures var round := Count(rounds, group);
              round !in old(Titles(group)) && Titles(group) == old(Titles(group)) + {round}
              && (d.title == "" ==> stored.title == Ops.RoundTitle(round))
    {
      hide PastFor, NextId, Bump, Count, Decimal.Digits, GroupIndex, WithGroup, Named, ValidName;
      NameIsKept(group);
      NamedWithDiff(group, d, now);
      Ops.BumpCounts(rounds, group);
      var i := FindGroup(groups, group);
      var id := HandOut(DIFF_PREFIX);
      ghost var mid := Current();
      groups := WithGroup(groups, group);
      var round := NextRound(group);
      stored := d.(id := id,
                   created := if d.created == 0 then now else d.created,
                   title := if d.title == "" then "diff " + Decimal.Digits(round) else d.title);
      groups := groups[i := groups[i].(diffs := groups[i].diffs + [stored])];
      GiveRound(mid, group);
    }

    lemma NamedWithDiff(group: string, d: Diff, now: nat)
      requires Past() && (named ==> ValidName(group))
      ensures named ==> Named(Ops.AddDiff(Current(), group, d, now).groups)
    {
      hide PastFor, Named, Ops.AddDiff, ValidName;
      NamedGroups();
      if named {
        Naming.AddDiffNamed(Current(), group, d, now);
      }
    }

    ghost method NameIsKept(group: string)
      requires Past()
      modifies this`named
      ensures Past() && named == (old(named) && ValidName(group))
    {
      hide HandedOut, StepsOf, Named, AllNamed, ValidName;
      named := named && ValidName(group);
    }

    /** The round just counted is new, and is remembered. */
    ghost method GiveRound(st: State, group: string)
      requires PastFor(st) && st.ids == ids && rounds == Bump(st.rounds, group) && (named ==> Named(groups))
      modifies this`titled
      ensures Past()
      ensures Count(rounds, group) !in old(Titles(group))
      ensures titled == old(titled)[group := old(Titles(group)) + {Count(rounds, group)}]
    {
      hide HandedOut, StepsOf, Named, AllNamed, Bump;
      titled := titled[group := Titles(group) + {Count(rounds, group)}];
    }

    /** The diff is stored under an id, and unless it has a title of its own under a number, that were never used. */
    method AddDiff(group: string, d: Diff, now: nat) returns (stored: Diff)
      requires Valid()
      modifies this, disk
      ensures Valid() && Kept(old(history), old(acked), old(disk.seen))
      ensures Current() == Ops.AddDiff(old(Current()), group, d, now)
      ensures stored == Ops.StoredDiff(old(Current()), group, d, now)
      ensures stored.id !in old(handed) && handed == old(handed) + {stored.id}
      ensures var round := Count(rounds, group);
              round !in old(Titles(group)) && Titles(group) == old(Titles(group)) + {round}
              && (d.title == "" ==> stored.title == Ops.RoundTitle(round))
      // No round of the group that was given a default title has this one.
      ensures d.title == "" ==> forall n :: n in old(Titles(group)) ==> Ops.RoundTitle(n) != stored.title
      ensures ValidName(group) ==> named == old(named)
      ensures Persisting() ==> (Saved() <==> !failing)
    {
      hide Inv, Valid, Ready, Kept, Saved, PastFor, Named, Ops.Replays, Ops.AddDiff, Ops.StoredDiff, Ops.RoundTitle, Count, ValidName;
      Begins();
      ghost var before := Current();
      Ops.AddDiffKeeps(before, group, d, now);
      stored := PutDiff(group, d, now);
      forall n | n in old(Titles(group))
        ensures Ops.RoundTitle(n) != Ops.RoundTitle(Count(rounds, group))
      {
        RoundTitlesDiffer(n, Count(rounds, group));
      }
      Persist(Ops.DiffRecord(group, stored), before);
    }

    method DeleteDiff(group: string, id: string) returns (found: bool)
      requires Valid()
      modifies this, disk
      ensures Valid() && Kept(old(history), old(acked), old(disk.seen))
      ensures Current() == Ops.DeleteDiff(old(Current()), group, id)
      ensures found == Ops.HasDiffIn(old(Current()), group, id)
      ensures handed == old(handed) && titled == old(titled) && named == old(named)
      ensures found && Persisting() ==> (Saved() <==> !failing)
    {
      hide Inv, Valid, Ready, Kept, Saved, PastFor, Named, Ops.Replays, Ops.DeleteDiff, Ops.HasDiffIn;
      Begins();
      ghost var before := Current();
      if named {
        Naming.DeleteDiffNamed(before, group, id);
      }
      Ops.DeleteDiffKeeps(before, group, id);
      found := TakeDiff(group, id);
      if found {
        PastMoves(before);
        Persist(Ops.DelDiffRecord(group, id), before);
      }
    }

    /** What DeleteDiff does to the session in memory. */
    method TakeDiff(group: string, id: string) returns (found: bool)
      modifies this`groups
      ensures Current() == Ops.DeleteDiff(old(Current()), group, id)
      ensures found == Ops.HasDiffIn(old(Current()), group, id)
      ensures !found ==> Current() == old(Current())
    {
      hide HasDiff, GroupIndex;
      var i := FindGroup(groups, group);
      if i == |groups| {
        return false;
      }
      var diffs;
      diffs, found := WithoutDiff(groups[i].diffs, id);
      if !found {
        return;
      }
      var comments := WithoutDiffComments(groups[i].comments, id);
      groups := groups[i := groups[i].(diffs := diffs, comments := comments)];
    }

    // ----- Groups -----

    method DeleteGroup(name: string) returns (found: bool)
      requires Valid()
      modifies this, disk
      ensures Valid() && Kept(old(history), old(acked), old(disk.seen))
      ensures Current() == Ops.DeleteGroup(old(Current()), name)
      ensures found == (GroupIndex(old(groups), name) < |old(groups)|)
      ensures handed == old(handed) && named == old(named)
      ensures found && Persisting() ==> (Saved() <==> !failing)
      // A group that comes back is a new review.
      ensures found ==> Titles(name) == {}
      ensures forall other :: other != name ==> Titles(other) == old(Titles(other))
      ensures !found ==> unchanged(this) && unchanged(disk)
    {
      hide Inv, Valid, Ready, Kept, Saved, PastFor, Named, Ops.Replays, GroupIndex, Ops.DeleteGroup;
      Begins();
      ghost var before := Current();
      Ops.DeleteGroupKeeps(before, name);
      found := TakeGroup(name);
      if found {
        Persist(Ops.DelGroupRecord(name), before);
      }
    }

    /** What DeleteGroup does to the session in memory. */
    method TakeGroup(name: string) returns (found: bool)
      requires Past()
      modifies this`groups, this`rounds, this`titled
      ensures Past()
      ensures Current() == Ops.DeleteGroup(old(Current()), name)
      ensures found == (GroupIndex(old(groups), name) < |old(groups)|)
      ensures !found ==> Current() == old(Current()) && titled == old(titled)
      ensures found ==> Titles(name) == {}
      ensures forall other :: other != name ==> Titles(other) == old(Titles(other))
    {
      hide HandedOut, DropGroup, StepsOf, Named, AllNamed;
      NamedGroups();
      if named {
        Naming.DeleteGroupNamed(Current(), name);
      }
      var kept;
      kept, found := WithoutGroup(groups, name);
      if found {
        groups := kept;
        rounds := rounds - {name};
        titled := titled - {name};
      }
    }

    method DeleteAllGroups() returns (names: seq<string>)
      requires Valid()
      modifies this, disk
      ensures Valid() && Kept(old(history), old(acked), old(disk.seen))
      ensures Current() == Ops.DeleteAll(old(Current()))
      ensures |names| == |old(groups)| && forall i :: 0 <= i < |names| ==> names[i] == old(groups)[i].name
      ensures handed == old(handed) && named == old(named)
      ensures names != [] && Persisting() ==> (Saved() <==> !failing)
    {
      hide Inv, Valid, Ready, Kept, Saved, PastFor, Named, Ops.Replays, SameCounts;
      Begins();
      ghost var before := Current();
      Ops.DeleteAllKeeps(before);
      names := NamesOf(groups);
      groups, rounds := [], map[];
      if |names| > 0 {
        ForgetTitles(before);
        Persist(Ops.DelAllRecord(), before);
      } else {
        StillValid(before);
      }
    }

    /** With the groups go their titles. */
    ghost method ForgetTitles(st: State)
      requires PastFor(st) && Current() == State([], st.ids, map[])
      modifies this`titled
      ensures Past() && titled == map[]
    {
      hide HandedOut, StepsOf, AllNamed, ValidName;
      titled := map[];
    }

    /** Nothing but counters that count to none has gone. */
    lemma StillValid(st: State)
      requires Inv(Current()) && Ready(st) && PastFor(st) && Recorded() && Same(st, Current()) && st.ids == ids
      ensures Valid()
    {
      hide Inv, PastFor, Durable, Books;
      PastSame(st);
      DurableSame(st);
    }

    /** What is past for a session is past for one that answers alike. */
    lemma PastSame(st: State)
      requires PastFor(st) && Same(st, Current()) && st.ids == ids
      ensures Past()
    {
      hide HandedOut, StepsOf, AllNamed, ValidName;
      forall name, n | name in titled && n in titled[name]
        ensures 1 <= n <= Count(rounds, name)
      {
        assert Count(st.rounds, name) == Count(rounds, name);
      }
    }

    /** What is durable for a session is durable for one that answers alike. */
    lemma DurableSame(st: State)
      requires Durable(st) && Same(st, Current())
      ensures Durable(Current())
    {
      hide LoadsTo, Appendable, Readable, Intact;
    }

    // ----- What a group says about its review -----

    /** The group says something new about its review. */
    method SayMeta(group: string, meta: Meta)
      requires Valid() && GroupIndex(groups, group) < |groups|
      requires multiset(HookIds(meta.hooks)) <= multiset(HookIds(groups[GroupIndex(groups, group)].meta.hooks))
      modifies this, disk
      ensures Valid() && Kept(old(history), old(acked), old(disk.seen))
      ensures Current() == Ops.PutMeta(old(Current()), group, meta)
      ensures handed == old(handed) && titled == old(titled) && named == old(named)
      ensures Persisting() ==> (Saved() <==> !failing)
    {
      hide Inv, Valid, Ready, Kept, Saved, PastFor, Named, Ops.Replays, Ops.PutMeta, HookIds, GroupIndex;
      Begins();
      ghost var before := Current();
      Ops.PutMetaKeeps(before, group, meta);
      Replace(group, meta);
      Persist(Ops.MetaRecord(group, meta), before);
    }

    /** What it does to the session in memory. */
    method Replace(group: string, meta: Meta)
      requires Past() && GroupIndex(groups, group) < |groups|
      modifies this`groups
      ensures Past() && Current() == Ops.PutMeta(old(Current()), group, meta)
    {
      hide PastFor, Named, GroupIndex;
      NamedGroups();
      ghost var before := Current();
      if named {
        Naming.PutMetaNamed(before, group, meta);
      }
      var i := FindGroup(groups, group);
      groups := groups[i := groups[i].(meta := meta)];
      PastMoves(before);
    }

    method SubmitReview(group: string, note: string, verdict: string, now: nat) returns (found: bool)
      requires Valid()
      modifies this, disk
      ensures Valid() && Kept(old(history), old(acked), old(disk.seen))
      ensures var i := GroupIndex(old(groups), group);
              found == (i < |old(groups)|)
              && Current() == if !found then old(Current())
                              else Ops.PutMeta(old(Current()), group, Meta(now, note, verdict, old(groups)[i].meta.hooks))
      ensures handed == old(handed) && titled == old(titled) && named == old(named)
      ensures found && Persisting() ==> (Saved() <==> !failing)
    {
      hide Inv, Durable, Past, Recorded, Ops.PutMeta;
      var i := FindGroup(groups, group);
      if i == |groups| {
        return false;
      }
      SayMeta(group, groups[i].meta.(reviewedAt := now, note := note, verdict := verdict));
      return true;
    }

    /** Whether the URL of a hook can be delivered to is decided elsewhere. */
    method AddHook(group: string, h: Hook, urlOk: bool, now: nat) returns (added: Option<Hook>)
      requires Valid()
      modifies this, disk
      ensures Valid() && Kept(old(history), old(acked), old(disk.seen))
      ensures added.None? <==> (h.command == "" && h.url == "") || (h.url != "" && !urlOk)
      ensures Current() == if added.None? then old(Current()) else Ops.AddHook(old(Current()), group, h, now)
      ensures added.Some? ==> added.value.command == h.command && added.value.url == h.url
      // A hook the group has already is answered as it is there; a new one as it is stored.
      ensures added.Some? ==> added.value == Ops.AnsweredHook(old(Current()), group, h, now)
      ensures added.Some? && Ops.NewHook(old(Current()), group, h) ==>
                added.value.id !in old(handed) && handed == old(handed) + {added.value.id}
                && (Persisting() ==> (Saved() <==> !failing))
      ensures titled == old(titled) && (ValidName(group) ==> named == old(named))
    {
      hide Valid, Kept, Ops.AddHook, Ops.NewHook, Ops.AnsweredHook, Current, ValidName;
      if (h.command == "" && h.url == "") || (h.url != "" && !urlOk) {
        KeptSoFar();
        return None;
      }
      var stored := Register(group, h, now);
      return Some(stored);
    }

    lemma KeptSoFar()
      requires Valid()
      ensures Kept(history, acked, disk.seen)
    {
      hide Inv, Agrees, LoadsTo, Recovers, Same;
    }

    method Register(group: string, h: Hook, now: nat) returns (stored: Hook)
      requires Valid()
      modifies this, disk
      ensures Valid() && Kept(old(history), old(acked), old(disk.seen))
      ensures Current() == Ops.AddHook(old(Current()), group, h, now)
      ensures stored.command == h.command && stored.url == h.url
      ensures stored == Ops.AnsweredHook(old(Current()), group, h, now)
      ensures Ops.NewHook(old(Current()), group, h) ==>
                stored.id !in old(handed) && handed == old(handed) + {stored.id} && (Persisting() ==> (Saved() <==> !failing))
      ensures titled == old(titled) && (ValidName(group) ==> named == old(named))
    {
      hide Valid, Kept, Saved, Ops.StoredHook, Ops.PutMeta, GroupIndex, WithGroup, ValidName;
      KeptSoFar();
      var i := FindGroup(groups, group);
      var all := WithGroup(groups, group);
      var same := FindSameHook(all[i].meta.hooks, h);
      if same < |all[i].meta.hooks| {
        return all[i].meta.hooks[same];
      }
      stored := RegisterNew(i, all, group, h, now);
    }

    /** The group has no such hook. */
    method RegisterNew(i: nat, all: seq<Group>, group: string, h: Hook, now: nat) returns (stored: Hook)
      requires Valid() && i == GroupIndex(groups, group) && all == WithGroup(groups, group)
      requires Ops.NewHook(Current(), group, h)
      modifies this, disk
      ensures Valid() && Kept(old(history), old(acked), old(disk.seen))
      ensures Current() == Ops.AddHook(old(Current()), group, h, now)
      ensures stored.command == h.command && stored.url == h.url
      ensures stored == Ops.AnsweredHook(old(Current()), group, h, now)
      ensures stored.id !in old(handed) && handed == old(handed) + {stored.id}
      ensures titled == old(titled) && (ValidName(group) ==> named == old(named))
      ensures Persisting() ==> (Saved() <==> !failing)
    {
      AsGiven(h, now);
      hide Inv, Valid, Ready, Kept, Saved, PastFor, Named, Ops.Replays, Ops.AddHook, Ops.NewHook, Ops.AnsweredHook, Ops.StoredHook,
           GroupIndex, WithGroup, ValidName;
      Begins();
      ghost var before := Current();
      Ops.AddHookKeeps(before, group, h, now);
      Ops.NewIsStored(before, group, h, now);
      stored := PutHook(i, all, group, h, now);
      Persist(Ops.MetaRecord(group, groups[i].meta), before);
    }

    lemma AsGiven(h: Hook, now: nat)
      ensures Ops.StoredHook(Current(), h, now).command == h.command && Ops.StoredHook(Current(), h, now).url == h.url
    {
    }

    lemma NamedGroups()
      requires Past()
      ensures named ==> Named(groups)
    {
    }

    /** What AddHook does to the session in memory. */
    method PutHook(i: nat, all: seq<Group>, group: string, h: Hook, now: nat) returns (stored: Hook)
      requires Past() && i == GroupIndex(groups, group) && all == WithGroup(groups, group)
      requires Ops.NewHook(Current(), group, h)
      modifies this`groups, this`ids, this`handed, this`named
      ensures Past() && named == (old(named) && ValidName(group))
      ensures stored == Ops.StoredHook(old(Current()), h, now)
      ensures Current() == Ops.AddHook(old(Current()), group, h, now)
      ensures stored.id !in old(handed) && handed == old(handed) + {stored.id}
    {
      hide PastFor, NextId, Bump, Named, GroupIndex, WithGroup, ValidName, Ops.NewHook;
      NameIsKept(group);
      NamedWithHook(i, all, group, Ops.StoredHook(Current(), h, now));
      var id := HandOut(HOOK_PREFIX);
      ghost var mid := Current();
      stored := h.(id := id, created := now);
      groups := all[i := all[i].(meta := all[i].meta.(hooks := all[i].meta.hooks + [stored]))];
      PastMoves(mid);
    }

    lemma NamedWithHook(i: nat, all: seq<Group>, group: string, h: Hook)
      requires Past() && (named ==> ValidName(group))
      requires i == GroupIndex(groups, group) && all == WithGroup(groups, group)
      ensures named ==> Named(all[i := all[i].(meta := all[i].meta.(hooks := all[i].meta.hooks + [h]))])
    {
      hide PastFor, Named, GroupIndex, WithGroup, ValidName;
      NamedGroups();
      if named {
        Naming.NamedWithGroup(groups, group);
        Naming.NamedUpdate(all, i, all[i].(meta := all[i].meta.(hooks := all[i].meta.hooks + [h])));
      }
    }

    /** RecordHookCommandRun and RecordHookPostRun: a hook that has gone does not come back. */
    method SetHookRun(group: string, id: string, run: HookRun, isPost: bool) returns (found: bool)
      requires Valid()
      modifies this, disk
      ensures Valid() && Kept(old(history), old(acked), old(disk.seen))
      ensures var i := GroupIndex(old(groups), group);
              found == (i < |old(groups)| && Ops.HookIndex(old(groups)[i].meta.hooks, id) < |old(groups)[i].meta.hooks|)
              && Current() == if !found then old(Current())
                              else var meta := old(groups)[i].meta;
                                   var k := Ops.HookIndex(meta.hooks, id);
                                   Ops.PutMeta(old(Current()), group, meta.(hooks := meta.hooks[k :=
                                     if isPost then meta.hooks[k].(lastPost := Some(run))
                                     else meta.hooks[k].(lastCommandRun := Some(run))]))
      ensures handed == old(handed) && titled == old(titled) && named == old(named)
      ensures found && Persisting() ==> (Saved() <==> !failing)
    {
      hide Inv, Durable, Past, Recorded, Ops.PutMeta, HookIds;
      var i := FindGroup(groups, group);
      if i == |groups| {
        return false;
      }
      var hooks := groups[i].meta.hooks;
      var k := FindHook(hooks, id);
      if k == |hooks| {
        return false;
      }
      var h := if isPost then hooks[k].(lastPost := Some(run)) else hooks[k].(lastCommandRun := Some(run));
      Ops.SameHookIds(hooks, k, h);
      SayMeta(group, groups[i].meta.(hooks := hooks[k := h]));
      return true;
    }

    method DeleteHooks(group: string, id: string) returns (removed: nat)
      requires Valid()
      modifies this, disk
      ensures Valid() && Kept(old(history), old(acked), old(disk.seen))
      ensures var i := GroupIndex(old(groups), group);
              if i == |old(groups)| then removed == 0 && Current() == old(Current())
              else var meta := old(groups)[i].meta;
                   var kept := Ops.DropHooks(meta.hooks, id);
                   removed == |meta.hooks| - |kept|
                   && (removed > 0 ==> Current() == Ops.PutMeta(old(Current()), group, meta.(hooks := kept)))
                   && (removed == 0 ==> Current() == old(Current()))
      ensures handed == old(handed) && titled == old(titled) && named == old(named)
      ensures removed > 0 && Persisting() ==> (Saved() <==> !failing)
    {
      hide Inv, Durable, Past, Recorded, Ops.PutMeta, HookIds;
      var i := FindGroup(groups, group);
      if i == |groups| {
        return 0;
      }
      var kept;
      kept, removed := WithoutHooks(groups[i].meta.hooks, id);
      Ops.DropHooksIds(groups[i].meta.hooks, id);
      if removed > 0 {
        SayMeta(group, groups[i].meta.(hooks := kept));
      }
    }

    // ----- Comments -----

    method AddComment(c: Comment, now: nat) returns (added: Ops.Added)
      requires Valid()
      modifies this, disk
      ensures Valid() && Kept(old(history), old(acked), old(disk.seen))
      ensures added == Ops.CheckComment(old(Current()), c, now)
      ensures Current() == Ops.AddComment(old(Current()), c, now)
      ensures added.Added? ==> added.comment.id !in old(handed) && handed == old(handed) + {added.comment.id}
      ensures titled == old(titled) && named == old(named)
      ensures added.Added? && Persisting() ==> (Saved() <==> !failing)
    {
      hide Inv, Valid, Ready, Kept, Saved, PastFor, Named, Ops.Replays, Ops.CheckComment, Ops.AddComment, NextId, Bump;
      Begins();
      ghost var before := Current();
      Ops.AddCommentKeeps(before, c, now);
      added := PutNewComment(c, now);
      if added.Added? {
        Persist(Ops.CommentRecord(c.group, added.comment), before);
      }
    }

    /** What AddComment does to the session in memory. */
    method PutNewComment(c: Comment, now: nat) returns (added: Ops.Added)
      requires Past()
      modifies this`groups, this`ids, this`handed
      ensures Past()
      ensures added == Ops.CheckComment(old(Current()), c, now)
      ensures Current() == Ops.AddComment(old(Current()), c, now)
      ensures added.Added? ==> added.comment.id !in old(handed) && handed == old(handed) + {added.comment.id}
      ensures added.Refused? ==> Current() == old(Current()) && handed == old(handed)
    {
      hide PastFor, NextId, Bump, GroupIndex, HasDiff, Named;
      NamedGroups();
      if named {
        Naming.AddCommentNamed(Current(), c, now);
      }
      var i := FindGroup(groups, c.group);
      if i == |groups| {
        return Ops.Refused(Ops.UnknownGroup);
      }
      var comments := groups[i].comments;
      var stored := c;
      if c.IsReply() {
        var r := ThreadRoot(comments, c.replyTo);
        if r == |comments| {
          return Ops.Refused(Ops.NoSuchComment);
        }
        var root := comments[r];
        stored := c.(replyTo := root.id, anchor := root.anchor, resolved := root.resolved, question := false);
      }
      var known := FindDiff(groups[i].diffs, stored.anchor.diffId);
      if !known {
        return Ops.Refused(Ops.UnknownDiff);
      }
      var id := HandOut(COMMENT_PREFIX);
      ghost var mid := Current();
      stored := stored.(id := id, created := now, updated := now);
      groups := groups[i := groups[i].(comments := comments + [stored])];
      PastMoves(mid);
      return Ops.Added(stored);
    }

    /** One record, of the first comment alone. */
    method ResolveThread(group: string, id: string, resolved: bool, now: nat)
      requires Valid() && Edits.HasComment(Current(), group, id)
      modifies this, disk
      ensures Valid() && Kept(old(history), old(acked), old(disk.seen))
      ensures Current() == Edits.Resolve(old(Current()), group, id, resolved, now)
      ensures handed == old(handed) && titled == old(titled) && named == old(named)
      ensures Persisting() ==> (Saved() <==> !failing)
    {
      hide Inv, Valid, Ready, Kept, Saved, PastFor, Named, Ops.Replays, Edits.HasComment, Edits.Resolve, Edits.ResolvedRoot;
      Begins();
      ghost var before := Current();
      if named {
        Naming.ResolveNamed(before, group, id, resolved, now);
      }
      Edits.ResolveKeeps(before, group, id, resolved, now);
      var root := Settle(group, id, resolved, now);
      PastMoves(before);
      Persist(Ops.CommentRecord(group, root), before);
    }

    /** What a resolution does to the session in memory. */
    method Settle(group: string, id: string, resolved: bool, now: nat) returns (root: Comment)
      requires Inv(Current()) && Edits.HasComment(Current(), group, id)
      modifies this`groups
      ensures Current() == Edits.Resolve(old(Current()), group, id, resolved, now)
      ensures root == Edits.ResolvedRoot(old(Current()), group, id, resolved, now)
    {
      hide Inv, GroupIndex, CommentIndex, RootIndex;
      var i := FindGroup(groups, group);
      var comments := groups[i].comments;
      var r := ThreadRoot(comments, id);
      RootIsThere(Current(), i, id);
      root := comments[r].(resolved := resolved, updated := now);
      var after := SetThreadResolved(comments[r := root], root);
      groups := groups[i := groups[i].(comments := after)];
    }

    static lemma RootIsThere(s: State, i: nat, id: string)
      requires Inv(s) && i < |s.groups| && CommentIndex(s.groups[i].comments, id) < |s.groups[i].comments|
      ensures RootIndex(s.groups[i].comments, id) < |s.groups[i].comments|
    {
      Ops.GroupFacts(s, i);
      hide Inv;
      RootOpens(s.groups[i].comments, id);
    }

    method EditComment(group: string, id: string, p: Edits.Patch, now: nat)
      requires Valid() && Edits.HasComment(Current(), group, id)
      modifies this, disk
      ensures Valid() && Kept(old(history), old(acked), old(disk.seen))
      ensures Current() == Edits.Edit(old(Current()), group, id, p, now)
      ensures handed == old(handed) && titled == old(titled) && named == old(named)
      ensures Persisting() ==> (Saved() <==> !failing)
    {
      hide Inv, Valid, Ready, Kept, Saved, PastFor, Named, Ops.Replays, Edits.HasComment, Edits.Edit, Edits.EditedComment;
      Begins();
      ghost var before := Current();
      if named {
        Naming.EditNamed(before, group, id, p, now);
      }
      Edits.EditKeeps(before, group, id, p, now);
      var c := Rewrite(group, id, p, now);
      PastMoves(before);
      Persist(Ops.CommentRecord(group, c), before);
    }

    /** What an edit does to the session in memory. */
    method Rewrite(group: string, id: string, p: Edits.Patch, now: nat) returns (c: Comment)
      requires Edits.HasComment(Current(), group, id)
      modifies this`groups
      ensures Current() == Edits.Edit(old(Current()), group, id, p, now)
      ensures c == Edits.EditedComment(old(Current()), group, id, p, now)
    {
      hide GroupIndex, CommentIndex;
      var i := FindGroup(groups, group);
      var j := FindComment(groups[i].comments, id);
      c := groups[i].comments[j];
      if p.body.Some? {
        c := c.(body := p.body.value);
      }
      if p.question.Some? && !c.IsReply() {
        c := c.(question := p.question.value);
      }
      c := c.(updated := now);
      groups := groups[i := groups[i].(comments := groups[i].comments[j := c])];
    }

    /** A resolution and an edit are two changes, and two records. */
    method UpdateComment(group: string, id: string, p: Edits.Patch, now: nat) returns (updated: Option<Comment>)
      requires Valid()
      modifies this, disk
      ensures Valid() && Kept(old(history), old(acked), old(disk.seen))
      ensures Inv(old(Current())) && Current() == Edits.UpdateComment(old(Current()), group, id, p, now)
      ensures updated.Some? == Edits.HasComment(old(Current()), group, id)
      // The comment answered is the one the session now holds.
      ensures updated.Some? ==>
                Edits.HasComment(Current(), group, id) && updated.value == Edits.CommentNow(Current(), group, id)
      ensures handed == old(handed) && titled == old(titled) && named == old(named)
      ensures updated.Some? && Persisting() ==> (Saved() <==> !failing)
    {
      hide Inv, Valid, Kept, Saved, GroupIndex, CommentIndex, Edits.Resolve, Edits.Edit;
      ValidHoldsInv();
      KeptSoFar();
      var i := FindGroup(groups, group);
      if i == |groups| {
        return None;
      }
      var j := FindComment(groups[i].comments, id);
      if j == |groups[i].comments| {
        return None;
      }
      ghost var before := Current();
      if p.resolved.Some? {
        Edits.ResolveKeeps(before, group, id, p.resolved.value, now);
        ResolveThread(group, id, p.resolved.value, now);
        i := FindGroup(groups, group);
        j := FindComment(groups[i].comments, id);
      }
      var c := groups[i].comments[j];
      if Edits.OnlyResolves(c, p) {
        return Some(c);
      }
      ghost var mid, steps, ack, left := Current(), history, acked, disk.seen;
      KeptParts(old(history), old(acked), old(disk.seen));
      EditComment(group, id, p, now);
      KeptOn(old(history), old(acked), old(disk.seen), steps, ack, left);
      Edits.EditStays(mid, group, id, p, now);
      updated := Some(groups[i].comments[j]);
    }

    lemma ValidHoldsInv()
      requires Valid()
      ensures Inv(Current())
    {
    }

    /** Keeping is transitive. */
    lemma KeptOn(h1: seq<State>, a1: nat, s1: iset<Option<string>>, h2: seq<State>, a2: nat, s2: iset<Option<string>>)
      requires h1 <= h2 && a1 <= a2
      requires forall c :: c in s2 && c !in s1 ==> Recovers(c, h2, a1)
      requires Kept(h2, a2, s2)
      ensures Kept(h1, a1, s1)
    {
      hide LoadsTo;
      forall c | c in disk.seen && c !in s1
        ensures Recovers(c, history, a1)
      {
        if c in s2 {
          RecoversLater(c, h2, history, a1);
        } else {
          var k :| a2 <= k < |history| && Same(LoadsTo(c), history[k]);
        }
      }
    }

    method DeleteComment(group: string, id: string) returns (found: bool)
      requires Valid()
      modifies this, disk
      ensures Valid() && Kept(old(history), old(acked), old(disk.seen))
      ensures Current() == Edits.DeleteComment(old(Current()), group, id)
      ensures found == Edits.HasComment(old(Current()), group, id)
      ensures handed == old(handed) && titled == old(titled) && named == old(named)
      ensures found && Persisting() ==> (Saved() <==> !failing)
    {
      hide Inv, Valid, Ready, Kept, Saved, PastFor, Named, Ops.Replays, Edits.HasComment, Edits.DeleteComment, Edits.DeletedIds;
      Begins();
      ghost var before := Current();
      if named {
        Naming.DeleteCommentNamed(before, group, id);
      }
      Edits.DeleteCommentKeeps(before, group, id);
      var gone;
      found, gone := TakeComment(group, id);
      if found {
        PastMoves(before);
        Persist(Edits.DelCommentsRecord(group, gone), before);
      }
    }

    /** What DeleteComment does to the session in memory. */
    method TakeComment(group: string, id: string) returns (found: bool, gone: seq<string>)
      modifies this`groups
      ensures Current() == Edits.DeleteComment(old(Current()), group, id)
      ensures found == Edits.HasComment(old(Current()), group, id)
      ensures if found then gone == Edits.DeletedIds(old(Current()), group, id) else Current() == old(Current())
    {
      hide GroupIndex, CommentIndex;
      var i := FindGroup(groups, group);
      if i == |groups| {
        return false, [];
      }
      var j := FindComment(groups[i].comments, id);
      if j == |groups[i].comments| {
        return false, [];
      }
      var comments;
      comments, gone := WithoutComment(groups[i].comments, groups[i].comments[j]);
      groups := groups[i := groups[i].(comments := comments)];
      return true, gone;
    }

    method ClearComments(group: string, resolvedOnly: bool) returns (removed: nat)
      requires Valid()
      modifies this, disk
      ensures Valid() && Kept(old(history), old(acked), old(disk.seen))
      ensures Current() == Edits.ClearComments(old(Current()), group, resolvedOnly)
      ensures removed == Edits.ThreadsCleared(old(Current()), group, resolvedOnly)
      ensures handed == old(handed) && titled == old(titled) && named == old(named)
      ensures removed > 0 && Persisting() ==> (Saved() <==> !failing)
    {
      hide Inv, Valid, Ready, Kept, Saved, PastFor, Named, Ops.Replays, Edits.ClearComments, Edits.ThreadsCleared, Edits.ClearedIds;
      Begins();
      ghost var before := Current();
      if named {
        Naming.ClearCommentsNamed(before, group, resolvedOnly);
      }
      Edits.ClearCommentsKeeps(before, group, resolvedOnly);
      var ids;
      removed, ids := TakeThreads(group, resolvedOnly);
      if removed > 0 {
        PastMoves(before);
        Persist(Edits.DelCommentsRecord(group, ids), before);
      }
    }

    /** What ClearComments does to the session in memory. */
    method TakeThreads(group: string, resolvedOnly: bool) returns (removed: nat, ids: seq<string>)
      modifies this`groups
      ensures Current() == Edits.ClearComments(old(Current()), group, resolvedOnly)
      ensures removed == Edits.ThreadsCleared(old(Current()), group, resolvedOnly)
      ensures if removed > 0 then GroupIndex(old(groups), group) < |old(groups)| && ids == Edits.ClearedIds(old(Current()), group, resolvedOnly)
              else Current() == old(Current())
    {
      hide GroupIndex, Threads.ThreadsOf, Edits.CountCleared, Edits.ClearedSet, Edits.KeptBy, Edits.GoneBy;
      var i := FindGroup(groups, group);
      if i == |groups| {
        return 0, [];
      }
      var gone;
      gone, removed := ClearedThreads(groups[i].comments, resolvedOnly);
      if removed == 0 {
        Edits.NothingCleared(Threads.ThreadsOf(groups[i].comments), resolvedOnly);
        Edits.KeptByNone(groups[i].comments);
        assert groups[i := groups[i].(comments := groups[i].comments)] == groups;
        return removed, [];
      }
      var comments;
      comments, ids := WithoutIds(groups[i].comments, gone);
      groups := groups[i := groups[i].(comments := comments)];
    }

    // ----- Prune -----

    /** The decision and the deletions are one step; each review that is closed is a record of its own. */
    method Prune(before: nat, force: bool, dryRun: bool, listed: seq<string>)
      returns (closed: seq<string>, kept: seq<Pruning.KeptGroup>)
      requires Valid()
      modifies this, disk
      ensures Valid() && Kept(old(history), old(acked), old(disk.seen))
      ensures closed == Pruning.ClosedNames(old(groups), before, force, listed)
      ensures kept == Pruning.KeptGroups(old(groups), before, force, listed)
      ensures Current() == if dryRun then old(Current()) else Pruning.DeleteGroups(old(Current()), closed)
      ensures handed == old(handed) && named == old(named)
      ensures closed != [] && !dryRun && Persisting() ==> (Saved() <==> !failing)
    {
      hide Valid, Current, Kept, Saved, Pruning.ClosedNames, Pruning.KeptFor, Pruning.Listed, Pruning.NotListed;
      closed, kept := Pruning.PruneGroups(groups, before, force);
      KeptSoFar();
      if |listed| > 0 {
        Pruning.ListedCloses(groups, before, force, listed);
        var narrowed;
        closed, narrowed := Pruning.Narrow(closed, listed);
        kept := kept + narrowed;
      }
      if dryRun || |closed| == 0 {
        return;
      }
      FirstIsThere(groups, before, force, listed);
      CloseAll(closed);
    }

    static lemma {:induction false} FirstIsThere(groups: seq<Group>, before: nat, force: bool, listed: seq<string>)
      ensures var closed := Pruning.ClosedNames(groups, before, force, listed);
              closed != [] ==> GroupIndex(groups, closed[0]) < |groups|
    {
      hide Pruning.ShouldClose;
      if |groups| > 0 && !Pruning.Closes(groups[0], before, force, listed) {
        FirstIsThere(groups[1..], before, force, listed);
      }
    }

    /** Each is a change that is saved; the first is there to be closed. */
    method CloseAll(names: seq<string>)
      requires Valid() && (names != [] ==> GroupIndex(groups, names[0]) < |groups|)
      modifies this, disk
      ensures Valid() && Kept(old(history), old(acked), old(disk.seen))
      ensures Current() == Pruning.DeleteGroups(old(Current()), names)
      ensures handed == old(handed) && named == old(named)
      ensures names != [] && Persisting() ==> (Saved() <==> !failing)
    {
      hide Valid, Current, Kept, Saved, Ops.DeleteGroup, GroupIndex;
      KeptSoFar();
      for i := 0 to |names|
        invariant Valid() && Kept(old(history), old(acked), old(disk.seen))
        invariant Pruning.DeleteGroups(old(Current()), names) == Pruning.DeleteGroups(Current(), names[i..])
        invariant handed == old(handed) && named == old(named)
        invariant if i == 0 then groups == old(groups) else Persisting() ==> (Saved() <==> !failing)
      {
        assert names[i..][1..] == names[i + 1..];
        ghost var steps, ack, left := history, acked, disk.seen;
        KeptParts(old(history), old(acked), old(disk.seen));
        var found := DeleteGroup(names[i]);
        KeptOn(old(history), old(acked), old(disk.seen), steps, ack, left);
      }
    }

    lemma KeptParts(h: seq<State>, a: nat, s: iset<Option<string>>)
      requires Kept(h, a, s)
      ensures h <= history && a <= acked && forall c :: c in disk.seen && c !in s ==> Recovers(c, history, a)
    {
    }

    // ----- The repository -----

    /** A session that belongs to none is taken over; the snapshot that says so is written by the next save. */
    method BindRepository(repo: Option<string>) returns (ok: bool)
      requires Valid()
      modifies this`repository, this`dirty
      ensures Valid()
      ensures ok == (repo.None? || repository == repo)
      ensures repository == if old(repository).None? then repo else old(repository)
      ensures repository != old(repository) ==> !Appends()
    {
      hide Inv, Agrees, LoadsTo, Recovers, HandedOut, StepsOf, Named, AllNamed, RepositoryOf;
      if repo.None? {
        return true;
      }
      if repository.Some? {
        return repository.value == repo.value;
      }
      repository := repo;
      dirty := true;
      return true;
    }

    // ----- Starting -----

    /** apply: one record of the log is replayed. */
    method ApplyRecord(rec: Record) returns (ok: bool)
      modifies this`groups, this`ids, this`rounds
      ensures ok == Apply(old(Current()), rec).Some?
      ensures ok ==> Some(Current()) == Apply(old(Current()), rec)
    {
      hide GroupIndex, DropDiffs, DropCommentsOn, DropComments, DropGroup, WithGroup, CarryResolved, CommentIndex;
      ids, rounds := rec.seqs, rec.rounds;
      var i := FindGroup(groups, rec.group);
      match rec.op {
        case OpDiff =>
          if rec.diff.None? {
            return false;
          }
          groups := WithGroup(groups, rec.group);
          groups := groups[i := groups[i].(diffs := groups[i].diffs + [rec.diff.value])];
        case OpDelDiff =>
          if i < |groups| {
            groups := groups[i := groups[i].(
              diffs := DropDiffs(groups[i].diffs, rec.ids), comments := DropCommentsOn(groups[i].comments, rec.ids))];
          }
        case OpDelGroup =>
          groups := DropGroup(groups, rec.group);
        case OpDelAll =>
          groups := [];
        case OpComment =>
          if i == |groups| || rec.comment.None? {
            return false;
          }
          var c := rec.comment.value;
          var comments := groups[i].comments;
          var j := FindComment(comments, c.id);
          if j < |comments| {
            comments := comments[j := c];
          } else {
            comments := comments + [c];
          }
          if !c.IsReply() {
            comments := SetThreadResolved(comments, c);
          }
          groups := groups[i := groups[i].(comments := comments)];
        case OpDelComments =>
          if i < |groups| {
            groups := groups[i := groups[i].(comments := DropComments(groups[i].comments, rec.ids))];
          }
        case OpMeta =>
          if rec.meta.None? {
            return false;
          }
          groups := WithGroup(groups, rec.group);
          groups := groups[i := groups[i].(meta := rec.meta.value)];
        case OpUnknown(_) =>
          return false;
      }
      return true;
    }

    /** The log is replayed over the snapshot. */
    method ReplayLog(records: seq<Record>) returns (ok: bool)
      modifies this`groups, this`ids, this`rounds
      ensures ok == Replay(old(Current()), records).Some?
      ensures ok ==> Some(Current()) == Replay(old(Current()), records)
    {
      hide Apply;
      for n := 0 to |records|
        invariant Replay(old(Current()), records) == Replay(Current(), records[n..])
      {
        assert records[n..][1..] == records[n + 1..];
        ok := ApplyRecord(records[n]);
        if !ok {
          return;
        }
      }
      return true;
    }

    /** The session of a file that could be taken apart, before the names are looked at. */
    method Adopt(p: Parsed) returns (ok: bool)
      requires p.Parsed?
      modifies this`groups, this`ids, this`rounds, this`repository, this`snapBytes, this`logBytes, this`dirty
      ensures ok == Restore(p).Some?
      ensures ok ==> Some(Current()) == Restore(p)
      ensures dirty <==> p.dirty || |NonNull(p.snap.groups)| != |p.snap.groups|
      ensures snapBytes == p.snapBytes && logBytes == p.logBytes && repository == p.snap.repository
    {
      hide Replay, NonNull, GuessRounds;
      snapBytes, logBytes, dirty := p.snapBytes, p.logBytes, p.dirty;
      repository := p.snap.repository;
      groups := NonNull(p.snap.groups);
      if |groups| != |p.snap.groups| {
        dirty := true;
      }
      ids := if p.snap.seqs == map[] then SharedCounters(p.snap.seq_) else p.snap.seqs;
      rounds := if p.snap.rounds == map[] then GuessRounds(groups) else p.snap.rounds;
      ok := ReplayLog(p.records);
    }

    /** The groups whose names cannot be used go; they are still in the file, which is then not appended to. */
    method DropUnnamed(ghost loaded: State)
      requires Current() == loaded && Inv(loaded) && LoadsTo(disk.content) == loaded
      requires PastOf(handed, titled, loaded)
      requires !dirty ==> Agrees(disk.content, loaded)
      requires RepositoryOf(disk.content) == repository
      requires acked == 0 && appended == compactions == compacted == 0
      modifies this`groups, this`rounds, this`dirty, this`titled, this`history, this`past, this`named, this`appended
      ensures Valid() && Current() == Cleaned(loaded)
      ensures titled == old(titled) - InvalidNames(loaded.groups)
      ensures named <==> Named(loaded.groups)
    {
      hide Inv, LoadsTo, Agrees, ValidGroups, Named, PastFor, Durable, Books, RepositoryOf, PastOf;
      CleanedKeeps(loaded);
      NamedAreValid(loaded.groups);
      StartWith(loaded);
      var valid := ValidGroups(groups);
      if |valid| != |groups| {
        dirty := true;
        rounds := rounds - InvalidNames(groups);
        groups := valid;
        LeaveUnnamed(loaded);
      } else {
        NoneInvalid(loaded.groups);
        assert titled - {} == titled;
      }
    }

    /** The session of the file is the first step. */
    ghost method StartWith(loaded: State)
      requires Current() == loaded && Inv(loaded) && LoadsTo(disk.content) == loaded
      requires PastOf(handed, titled, loaded)
      requires !dirty ==> Agrees(disk.content, loaded)
      requires RepositoryOf(disk.content) == repository
      requires acked == 0 && appended == compactions == compacted == 0
      modifies this`history, this`past, this`named, this`appended
      ensures Valid() && history == [loaded] && (Persisting() ==> Recovers(disk.content, history, 0))
      ensures named <==> Named(loaded.groups)
    {
      hide Inv, HandedOut, LoadsTo, Agrees, Named, StepsOf, PastOf, RepositoryOf, Intact;
      if !dirty {
        AgreesIsIntact(disk.content, loaded, repository);
      }
      OneStep(loaded, handed, titled);
      appended := logBytes;
      history, past, named := [loaded], [Handed(handed, titled)], Named(loaded.groups);
      assert Same(LoadsTo(disk.content), history[0]);
    }

    /** The groups that were dropped leave a step more, which the file does not stand for. */
    ghost method LeaveUnnamed(loaded: State)
      requires history == [loaded] && acked == 0 && Inv(Current()) && Books() && Recorded()
      requires Persisting() ==> Recovers(disk.content, history, 0)
      requires PastFor(loaded) && !named && dirty && Current() == loaded.(groups := groups, rounds := loaded.rounds - InvalidNames(loaded.groups))
      modifies this`titled, this`history, this`past
      ensures Valid()
      ensures titled == old(titled) - InvalidNames(loaded.groups)
    {
      hide Inv, LoadsTo, Recovers, StepsOf, HandedOut, Books, Intact, InvalidNames;
      titled := titled - InvalidNames(loaded.groups);
      if Persisting() {
        RecoversLater(disk.content, history, history + [Current()], 0);
      }
      Record();
    }

    static lemma NoneInvalid(all: seq<Group>)
      requires Named(all)
      ensures InvalidNames(all) == {}
    {
      hide ValidName;
    }

    /**
     * Load, by a new store. `earlier` and `rounds0` are the ids and round
     * numbers that stores have handed out before: what the session of the file
     * knows of them is never handed out again. A file that is broken, or of a
     * newer version, tells nothing of them.
     */
    method Load(ghost earlier: set<string>, ghost rounds0: map<string, set<nat>>) returns (ok: bool)
      requires hasPath && IsNew()
      requires Inv(LoadsTo(disk.content))
      modifies this, disk
      ensures Valid()
      ensures var loaded := LoadsTo(old(disk.content));
              && handed == Known(earlier, loaded.ids)
              && titled == KnownTitles(rounds0, loaded.rounds) - InvalidNames(loaded.groups)
              && (named <==> Named(loaded.groups))
      // A file of a newer version is left alone, and one that is broken is set aside.
      ensures sealed == (old(disk.content).Some? && NewerVersion(old(disk.content).value))
      ensures sealed ==> disk.content == old(disk.content) && Current() == EMPTY
      // What makes the store refuse the file is kept to be reported; a file that was loaded is no failure.
      ensures failing == (sealed || old(failing))
      ensures Current() == Cleaned(LoadsTo(old(disk.content)))
      ensures ok == (old(disk.content).None? || Readable(old(disk.content).value))
      ensures ok ==> disk.content == old(disk.content) && repository == RepositoryOf(old(disk.content))
      ensures !ok ==> handed == {} && forall name, n: nat :: name in titled ==> n !in titled[name]
    {
      hide Inv, HandedOut, Restore, Appendable, Cleaned, Parse, Recovers, Known, KnownTitles, PastOf, StepsOf, Below;
      ghost var loaded := LoadsTo(disk.content);
      handed, titled := Known(earlier, loaded.ids), KnownTitles(rounds0, loaded.rounds);
      PastOfKnown(earlier, rounds0, loaded);
      if disk.content.None? {
        StandsEmpty();
        return true;
      }
      var p := ParseSession(disk.content.value);
      if p.Broken? {
        NothingKnown(earlier, rounds0);
        SetAside();
        return false;
      }
      if p.snap.version > SessionCodec.PERSIST_VERSION {
        sealed, failing := true, true;
        NothingKnown(earlier, rounds0);
        StandsEmpty();
        return false;
      }
      if !Readable(disk.content.value) {
        NothingKnown(earlier, rounds0);
      }
      ok := Start(p, disk.content.value);
    }

    /** An empty session knows of nothing that was handed out. */
    static lemma NothingKnown(handed: set<string>, titled: map<string, set<nat>>)
      ensures Known(handed, EMPTY.ids) == {}
      ensures var known := KnownTitles(titled, EMPTY.rounds); forall name, n: nat :: name in known ==> n !in known[name]
    {
    }

    /** The rest of Load, for a file of a version this build reads. */
    method Start(p: Parsed, ghost b: string) returns (ok: bool)
      requires hasPath && !sealed && disk.content == Some(b)
      requires p == Parse(b) && p.Parsed? && p.snap.version <= SessionCodec.PERSIST_VERSION
      requires Inv(LoadsTo(Some(b))) && PastOf(handed, titled, LoadsTo(Some(b)))
      requires history == [EMPTY] && past == [NOTHING] && named && acked == 0 && appended == compactions == compacted == 0
      modifies this`groups, this`ids, this`rounds, this`repository, this`snapBytes, this`logBytes, this`dirty
      modifies this`titled, this`history, this`past, this`named, this`appended, disk
      ensures Valid() && Current() == Cleaned(LoadsTo(Some(b)))
      ensures titled == old(titled) - InvalidNames(LoadsTo(Some(b)).groups)
      ensures named <==> Named(LoadsTo(Some(b)).groups)
      ensures ok == Readable(b)
      ensures ok ==> disk.content == Some(b) && repository == RepositoryOf(Some(b))
    {
      hide Inv, Valid, Restore, Agrees, LoadsTo, Readable, RepositoryOf, Cleaned, Parse, PastOf, Named, InvalidNames;
      ghost var loaded := LoadsTo(Some(b));
      LoadsParsed(b, p);
      ok := Adopt(p);
      if !ok {
        StartEmpty();
        return;
      }
      AdoptedAgrees(p, loaded);
      DropUnnamed(loaded);
    }

    /** A log that cannot be replayed is as broken as a file that cannot be read. */
    method StartEmpty()
      requires LoadsTo(disk.content) == EMPTY && PastOf(handed, titled, EMPTY)
      requires history == [EMPTY] && past == [NOTHING] && named && acked == 0 && appended == compactions == compacted == 0
      modifies this`groups, this`ids, this`rounds, this`snapBytes, this`logBytes, this`dirty, this`past, disk
      ensures Valid() && Current() == Cleaned(EMPTY)
      ensures titled == titled - InvalidNames(EMPTY.groups) && Named(EMPTY.groups)
    {
      hide Valid, LoadsTo, Cleaned, PastOf, Named, InvalidNames;
      groups, ids, rounds := [], map[], map[];
      snapBytes, logBytes, dirty := 0, 0, false;
      SetAside();
    }

    static lemma LoadsParsed(b: string, p: Parsed)
      requires p == Parse(b) && p.Parsed? && p.snap.version <= SessionCodec.PERSIST_VERSION
      ensures Readable(b) <==> Restore(p).Some?
      ensures LoadsTo(Some(b)) == if Restore(p).Some? then Restore(p).value else EMPTY
      ensures RepositoryOf(Some(b)) == p.snap.repository
    {
      hide Parse, Restore;
    }

    lemma AdoptedAgrees(p: Parsed, loaded: State)
      requires disk.content.Some? && p == Parse(disk.content.value) && p.Parsed? && p.snap.version <= SessionCodec.PERSIST_VERSION
      requires Restore(p) == Some(loaded) && LoadsTo(disk.content) == loaded
      ensures !p.dirty ==> Agrees(disk.content, loaded)
    {
      hide Restore, Parse, LoadsTo;
    }

    /** brokenFile: the session starts empty, and the old file is kept under another name if it can be. */
    method SetAside()
      requires Current() == EMPTY && LoadsTo(disk.content) == EMPTY && snapBytes == 0 && logBytes == 0
      requires history == [EMPTY] && past == [NOTHING] && named && acked == 0 && appended == compactions == compacted == 0
      requires PastOf(handed, titled, EMPTY)
      modifies disk, this`past
      ensures Valid() && Current() == Cleaned(EMPTY)
      ensures titled == titled - InvalidNames(EMPTY.groups) && Named(EMPTY.groups)
    {
      hide Inv, LoadsTo, HandedOut, Recovers, Cleaned, PastOf, StepsOf;
      var moved := disk.SetAside();
      NoFileIsEmpty();
      StandsEmpty();
    }

    static lemma NoFileIsEmpty()
      ensures LoadsTo(None) == EMPTY
    {
    }

    ghost method StandsEmpty()
      requires Current() == EMPTY && snapBytes == 0 && logBytes == 0
      requires sealed || LoadsTo(disk.content) == EMPTY
      requires PastOf(handed, titled, EMPTY)
      requires history == [EMPTY] && named && acked == 0 && appended == compactions == compacted == 0
      modifies this`past
      ensures Valid() && Current() == Cleaned(EMPTY)
      ensures titled == titled - InvalidNames(EMPTY.groups) && Named(EMPTY.groups)
    {
      hide Inv, LoadsTo, HandedOut, Appendable, PastOf, StepsOf, RepositoryOf;
      EmptyInv();
      OneStep(EMPTY, handed, titled);
      past := [Handed(handed, titled)];
      assert InvalidNames(EMPTY.groups) == {};
      assert !sealed ==> Same(LoadsTo(disk.content), history[0]);
    }
  }

  predicate NewerVersion(b: string) {
    Parse(b).Parsed? && Parse(b).snap.version > SessionCodec.PERSIST_VERSION
  }

  /**
   * Once the last change was saved without an error, a server that starts on
   * the file holds the session, less the groups whose names cannot be used;
   * and there are none of those when every group was created under a name
   * that can.
   */
  lemma AcknowledgedSurvives(store: Store)
    requires store.Valid() && store.Persisting() && store.acked == |store.history| - 1
    ensures Same(Cleaned(LoadsTo(store.disk.content)), Cleaned(store.Current()))
    ensures Cleaned(store.Current()) == store.Current() <==> Named(store.groups)
    ensures store.named ==> Named(store.groups)
  {
    hide Inv, LoadsTo, Agrees, Cleaned, Named, Intact, StepsOf, HandedOut;
    var k :| store.acked <= k < |store.history| && Same(LoadsTo(store.disk.content), store.history[k]);
    SameIsTransitive(LoadsTo(store.disk.content), store.history[k], store.Current());
    CleanedSame(LoadsTo(store.disk.content), store.Current());
    CleanedIsAll(store.Current());
  }

  /** A store whose file does not stand for its session is about to write a snapshot of it. */
  lemma StaleMeansSnapshot(store: Store)
    requires store.Valid() && store.Persisting() && !Same(LoadsTo(store.disk.content), store.Current())
    ensures store.dirty || store.snapBytes == 0 || store.logBytes > Max(store.snapBytes, store.compactMin)
  {
    hide Inv, LoadsTo, Appendable, Readable;
  }

  /** The snapshots that folding the log made cost less than twice what was appended, unless one grew. */
  lemma CompactionCostsLess(store: Store)
    requires store.Valid() && store.compactions > 0
    ensures store.compactions * store.compactMin < store.appended
    ensures store.economical ==> store.compacted < 2 * store.appended
  {
    hide Inv, LoadsTo, Agrees, Recovers, HandedOut;
    Distribute(store.compactions, store.compactMin);
  }

  lemma Distribute(n: nat, m: nat)
    ensures n * (m + 1) == n * m + n
  {
  }

  // ----- A file that is only looked at -----

  lemma {:induction false} ReplayGroups(s: State, t: State, records: seq<Record>)
    requires s.groups == t.groups
    ensures Replay(s, records).Some? == Replay(t, records).Some?
    ensures Replay(s, records).Some? ==> Replay(s, records).value.groups == Replay(t, records).value.groups
  {
    hide Apply;
    if |records| > 0 {
      ApplySame(s, t, records[0]);
    }
  }

  /** ReadSession: the reviews in the file of a server that is not running, which is not touched. */
  method ReadSession(b: string) returns (groups: Option<seq<Group>>)
    ensures groups == if Readable(b) then Some(LoadsTo(Some(b)).groups) else None
  {
    hide Parse, Replay, NonNull, GuessRounds;
    var p := ParseSession(b);
    if p.Broken? || p.snap.version > SessionCodec.PERSIST_VERSION {
      return None;
    }
    var disk := new Disk(None);
    var tmp := new Store(disk, false, 0);
    tmp.groups := NonNull(p.snap.groups);
    ReplayGroups(FromSnapshot(p.snap), tmp.Current(), p.records);
    var ok := tmp.ReplayLog(p.records);
    return if ok then Some(tmp.groups) else None;
  }
}
