/**
 * A server that stops at any moment and another that starts on the file it
 * left: what the second knows, and what it may hand out again.
 */
module Restarts {
  import opened Prelude
  import opened Session
  import opened SessionIds
  import opened SessionFile
  import opened Recovery
  import opened Steps
  import opened Stores
  import Ops = SessionOps

  /** Every file a stop can leave stands for a step that is not older than ack, and keeps what every session keeps. */
  lemma FileStandsForStep(was: Store, left: Option<string>, ack: nat) returns (k: nat)
    requires was.Valid() && Recovers(left, was.history, ack)
    ensures ack <= k < |was.history| == |was.past| && Same(LoadsTo(left), was.history[k])
    ensures Inv(LoadsTo(left)) && was.past[ack].ids <= was.past[k].ids
    ensures Known(was.handed, LoadsTo(left).ids) == was.past[k].ids
    ensures KnownTitles(was.past[k].titles, LoadsTo(left).rounds) == was.past[k].titles
    ensures was.named ==> Named(was.history[k].groups)
  {
    hide Inv, LoadsTo, StepsOf, HandedOut, Known, KnownTitles, Same, Named;
    k :| ack <= k < |was.history| && Same(LoadsTo(left), was.history[k]);
    StepIsKnown(was.history, was.past, was.handed, was.ids, k, LoadsTo(left));
    PastGrows(was.history, was.past, was.handed, was.ids, ack, k);
    StepsAreMany(was.history, was.past, was.handed, was.ids);
  }

  lemma StepsAreMany(history: seq<State>, past: seq<Handed>, handed: set<string>, ids: Counters)
    requires StepsOf(history, past, handed, ids)
    ensures |past| == |history|
  {
  }

  /**
   * A server stops, at any moment of its life, and another starts on the file
   * that was left. It takes up the session of a step k that is not older than
   * ack, the last step acknowledged; it knows every id handed out up to that
   * step; and an id handed out after it, and none other, can come again.
   */
  method Restart(was: Store, left: Option<string>, ghost ack: nat) returns (next: Store, ghost k: nat)
    requires was.Valid() && Recovers(left, was.history, ack)
    ensures fresh(next) && next.Valid()
    ensures ack <= k < |was.history| && Same(LoadsTo(left), was.history[k])
    ensures Same(next.Current(), Cleaned(was.history[k]))
    ensures was.past[ack].ids <= was.past[k].ids == next.handed
    ensures forall id :: id in was.handed ==> (ComesAgain(id, next.ids) <==> id !in was.past[k].ids)
    ensures next.titled == was.past[k].titles - InvalidNames(was.history[k].groups)
    ensures forall name, n: nat :: name in next.titled && n in next.titled[name] ==> !TitleComesAgain(n, name, next.rounds)
    // Groups that were all created under names that can be used are all there.
    ensures was.named ==> next.named && Same(next.Current(), was.history[k])
    ensures Intact(left, was.repository) ==> next.repository == was.repository
  {
    hide Inv, LoadsTo, StepsOf, HandedOut, Known, KnownTitles, Named, Cleaned, RepositoryOf, Readable, Same, ComesAgain, TitleComesAgain, NewerVersion;
    hide InvalidNames;
    k := FileStandsForStep(was, left, ack);
    var disk := new Disk(left);
    next := new Store(disk, true, was.compactMin);
    var ok := next.Load(was.handed, was.past[k].titles);
    Restarted(was, left, k, next);
  }

  /** Some run of rounds of the group gives the title of round n again. */
  ghost predicate TitleComesAgain(n: nat, group: string, rounds: Counters) {
    exists more: nat :: TitlesNext(n, group, rounds, more)
  }

  lemma Restarted(was: Store, left: Option<string>, k: nat, next: Store)
    requires was.Valid() && next.Valid() && k < |was.history| == |was.past| && Same(LoadsTo(left), was.history[k])
    requires next.Current() == Cleaned(LoadsTo(left))
    requires next.named <==> Named(LoadsTo(left).groups)
    ensures Same(next.Current(), Cleaned(was.history[k]))
    ensures forall id :: id in was.handed ==> (ComesAgain(id, next.ids) <==> id !in was.past[k].ids)
    ensures forall name, n: nat :: name in next.titled && n in next.titled[name] ==> !TitleComesAgain(n, name, next.rounds)
    ensures was.named ==> next.named && Same(next.Current(), was.history[k])
    ensures LoadsTo(left).groups == was.history[k].groups
  {
    hide Inv, LoadsTo, StepsOf, HandedOut, Known, KnownTitles, Named, Cleaned, RepositoryOf, Readable, ComesAgain, TitleComesAgain, SameCounts;
    var loaded := LoadsTo(left);
    CleanedSame(loaded, was.history[k]);
    if was.named {
      assert Named(was.history[k].groups);
      CleanedIsAll(was.history[k]);
    }
    forall id | id in was.handed
      ensures ComesAgain(id, next.ids) <==> id !in was.past[k].ids
    {
      IdsAreKept(loaded);
      LostIdsComeAgain(was.history, was.past, was.handed, was.ids, k, loaded, id);
    }
    TitlesAreTaken(next);
  }

  lemma IdsAreKept(s: State)
    ensures Cleaned(s).ids == s.ids
  {
  }

  lemma TitlesAreTaken(store: Store)
    requires store.Past()
    ensures forall name, n: nat :: name in store.titled && n in store.titled[name] ==> !TitleComesAgain(n, name, store.rounds)
  {
    hide StepsOf, HandedOut, Named, AllNamed, TitlesNext;
    forall name, n: nat | name in store.titled && n in store.titled[name]
      ensures !TitleComesAgain(n, name, store.rounds)
    {
      LostTitlesComeAgain(n, name, store.rounds);
    }
  }

  /**
   * Once the last change was saved without an error: the next server holds
   * the same session, of the same repository, less the groups whose names
   * cannot be used, and no id or round title of it comes again.
   */
  method RestartAfterSave(was: Store) returns (next: Store)
    requires was.Valid() && was.Persisting() && was.Saved()
    ensures fresh(next) && next.Valid()
    ensures Same(next.Current(), Cleaned(was.Current()))
    ensures was.named ==> Same(next.Current(), was.Current())
    ensures next.handed == was.handed && forall id :: id in was.handed ==> !ComesAgain(id, next.ids)
    ensures next.titled == was.titled - InvalidNames(was.groups)
    ensures forall name, n: nat :: name in next.titled && n in next.titled[name] ==> !TitleComesAgain(n, name, next.rounds)
    ensures next.repository == was.repository
  {
    hide Inv, LoadsTo, StepsOf, HandedOut, Cleaned, Intact, ComesAgain, TitleComesAgain, InvalidNames, Named, SameCounts, AllNamed;
    ghost var k;
    next, k := Restart(was, was.disk.content, was.acked);
    LastStepIsPresent(was);
    CleanedSame(was.history[k], was.Current());
    SameIsTransitive(next.Current(), Cleaned(was.history[k]), Cleaned(was.Current()));
    if was.named {
      SameIsTransitive(next.Current(), was.history[k], was.Current());
    }
  }

  lemma LastStepIsPresent(store: Store)
    requires store.Valid()
    ensures |store.past| == |store.history| > 0
    ensures Same(store.history[|store.history| - 1], store.Current())
    ensures store.past[|store.past| - 1] == Handed(store.handed, store.titled)
  {
    hide Inv, LoadsTo, HandedOut, Named, AllNamed, Intact, StepOk, Below;
  }

  // ----- What an unsaved change may cost -----

  /** A file that was never written stands for the step before the first change, which was not acknowledged. */
  lemma NothingWritten(st: State)
    ensures Recovers(None, [EMPTY, st], 0)
  {
    assert LoadsTo(None) == EMPTY;
    assert Same(LoadsTo(None), [EMPTY, st][0]);
  }

  /**
   * AddDiff answers although neither the append nor the snapshot was written;
   * when the server then stops, the next one gives the same id, and the same
   * title, to another diff.
   */
  method UnsavedIdComesAgain(disk: Disk, group: string, d: Diff, e: Diff, now: nat) returns (first: Diff, second: Option<Diff>)
    requires disk.content.None?
    modifies disk
    ensures second.Some? ==> second.value.id == first.id
    ensures second.Some? && d.title == "" && e.title == "" ==> second.value.title == first.title
  {
    hide Inv, LoadsTo, StepsOf, HandedOut, Known, KnownTitles, Named, RepositoryOf, Readable, NewerVersion, Bump;
    NothingLoads();
    var one := new Store(disk, true, DEFAULT_COMPACT_MIN);
    first := one.AddDiff(group, d, now);
    if disk.content.Some? {
      return first, None;
    }
    EmptyInv();
    var two := new Store(disk, true, DEFAULT_COMPACT_MIN);
    var ok := two.Load(one.handed, one.titled);
    var again := two.AddDiff(group, e, now);
    second := Some(again);
  }

  /**
   * Such a run there is, of every first AddDiff: neither the append nor the
   * snapshot need leave anything, what is left stands for the step before, and
   * the id and the title that were answered can be given again.
   */
  lemma UnsavedRun(group: string, d: Diff, now: nat)
    ensures var st := Ops.AddDiff(EMPTY, group, d, now);
            var stored := Ops.StoredDiff(EMPTY, group, d, now);
            && LeftByAppend(None, Line(Ops.Stamped(Ops.DiffRecord(group, stored), st)), None)
            && LeftByReplace(None, SnapshotFile(st, None), None)
            && Recovers(None, [EMPTY, st], 0) && !Same(LoadsTo(None), st)
            && ComesAgain(stored.id, LoadsTo(None).ids)
            && (d.title == "" ==> stored.title == Ops.RoundTitle(1))
            && TitleComesAgain(1, group, LoadsTo(None).rounds)
  {
    var st := Ops.AddDiff(EMPTY, group, d, now);
    NothingWritten(st);
    NothingLoads();
    hide LoadsTo, SnapshotFile, Ops.RoundTitle, WithGroup;
    assert |st.groups| > 0;
    assert GivesNext(Ops.StoredDiff(EMPTY, group, d, now).id, EMPTY.ids, DIFF_PREFIX, 0);
    assert TitlesNext(1, group, EMPTY.rounds, 0);
  }

  lemma NothingLoads()
    ensures LoadsTo(None) == EMPTY && Cleaned(EMPTY) == EMPTY
  {
  }
}
