/**
 * What a store has handed out at each step of its life, so that what a file
 * stands for after a stop says which ids and round titles are still known.
 */
module Steps {
  import opened Session
  import opened SessionIds
  import Decimal
  import Ops = SessionOps

  /** The ids a store handed out, and the numbers of the rounds each living group was given. */
  datatype Handed = Handed(ids: set<string>, titles: map<string, set<nat>>)

  const NOTHING := Handed({}, map[])

  /** The ids and round numbers handed out before are below the counters of st. */
  ghost predicate PastOf(handed: set<string>, titled: map<string, set<nat>>, st: State) {
    && (forall id :: id in handed ==> HandedOut(id, st.ids))
    && (forall name, n :: name in titled && n in titled[name] ==> 1 <= n <= Count(st.rounds, name))
  }

  /** Of the ids handed out, those that the counters know to be taken. */
  ghost function Known(handed: set<string>, ids: Counters): set<string> {
    set id | id in handed && HandedOut(id, ids)
  }

  ghost function KnownTitles(titled: map<string, set<nat>>, rounds: Counters): map<string, set<nat>> {
    map name | name in titled :: set n | n in titled[name] && 1 <= n <= Count(rounds, name)
  }

  ghost predicate Below(a: Counters, b: Counters) {
    forall key :: Count(a, key) <= Count(b, key)
  }

  /** A step of a store that has handed out `handed` since, and whose counters are `ids` by now. */
  ghost predicate StepOk(st: State, p: Handed, handed: set<string>, ids: Counters) {
    && Inv(st)
    && Below(st.ids, ids)
    && PastOf(p.ids, p.titles, st)
    // An id is among those of the step exactly when the counters of the step know it.
    && p.ids == Known(handed, st.ids)
  }

  ghost predicate StepsOf(history: seq<State>, past: seq<Handed>, handed: set<string>, ids: Counters) {
    && |past| == |history|
    && (forall k :: 0 <= k < |history| ==> StepOk(history[k], past[k], handed, ids))
    && (forall j, k :: 0 <= j <= k < |history| ==> Below(history[j].ids, history[k].ids))
  }

  // ----- Counters that go up -----

  lemma HandedOutBelow(id: string, a: Counters, b: Counters)
    requires HandedOut(id, a) && Below(a, b)
    ensures HandedOut(id, b)
  {
    var prefix, n: nat :| prefix in {DIFF_PREFIX, COMMENT_PREFIX, HOOK_PREFIX} && NumberedBy(id, prefix, n, a);
    assert NumberedBy(id, prefix, n, b);
  }

  lemma KnownBelow(handed: set<string>, a: Counters, b: Counters)
    requires Below(a, b)
    ensures Known(handed, a) <= Known(handed, b)
  {
    hide HandedOut, Below;
    forall id | id in Known(handed, a)
      ensures id in Known(handed, b)
    {
      HandedOutBelow(id, a, b);
    }
  }

  lemma BelowSame(a: Counters, b: Counters)
    requires SameCounts(a, b)
    ensures Below(a, b) && Below(b, a)
  {
  }

  /** Counters that count alike know the same ids. */
  lemma KnownSame(handed: set<string>, a: Counters, b: Counters)
    requires SameCounts(a, b)
    ensures Known(handed, a) == Known(handed, b)
  {
    hide Known, SameCounts, Below;
    BelowSame(a, b);
    KnownBelow(handed, a, b);
    KnownBelow(handed, b, a);
  }

  lemma PastOfKnown(handed: set<string>, titled: map<string, set<nat>>, st: State)
    ensures PastOf(Known(handed, st.ids), KnownTitles(titled, st.rounds), st)
  {
    hide HandedOut;
  }

  lemma KnownTitlesAll(handed: set<string>, titled: map<string, set<nat>>, st: State, rounds: Counters)
    requires PastOf(handed, titled, st) && SameCounts(st.rounds, rounds)
    ensures KnownTitles(titled, rounds) == titled
  {
    hide HandedOut;
    forall name | name in titled
      ensures KnownTitles(titled, rounds)[name] == titled[name]
    {
      assert Count(st.rounds, name) == Count(rounds, name);
    }
  }

  // ----- A step more -----

  lemma StepOkBump(st: State, p: Handed, handed: set<string>, ids: Counters, prefix: string)
    requires StepOk(st, p, handed, ids) && prefix in {DIFF_PREFIX, COMMENT_PREFIX, HOOK_PREFIX}
    ensures StepOk(st, p, handed + {NextId(ids, prefix)}, Bump(ids, prefix))
  {
    hide Inv, HandedOut, PastOf, Bump, NextId;
    var id := NextId(ids, prefix);
    NextIdIsNew(ids, prefix);
    if HandedOut(id, st.ids) {
      HandedOutBelow(id, st.ids, ids);
    }
    assert Known(handed + {id}, st.ids) == Known(handed, st.ids);
    BelowBump(st.ids, ids, prefix);
  }

  lemma BelowBump(a: Counters, b: Counters, prefix: string)
    requires Below(a, b)
    ensures Below(a, Bump(b, prefix))
  {
    forall key
      ensures Count(a, key) <= Count(Bump(b, prefix), key)
    {
      assert Count(a, key) <= Count(b, key);
    }
  }

  /** An id that is handed out now was handed out at no step before. */
  lemma StepsBump(history: seq<State>, past: seq<Handed>, handed: set<string>, ids: Counters, prefix: string)
    requires StepsOf(history, past, handed, ids) && prefix in {DIFF_PREFIX, COMMENT_PREFIX, HOOK_PREFIX}
    ensures StepsOf(history, past, handed + {NextId(ids, prefix)}, Bump(ids, prefix))
  {
    hide StepOk, Below, Bump, NextId;
    forall k | 0 <= k < |history|
      ensures StepOk(history[k], past[k], handed + {NextId(ids, prefix)}, Bump(ids, prefix))
    {
      StepOkBump(history[k], past[k], handed, ids, prefix);
    }
  }

  lemma LastStepOk(st: State, handed: set<string>, titled: map<string, set<nat>>)
    requires Inv(st) && PastOf(handed, titled, st)
    ensures StepOk(st, Handed(handed, titled), handed, st.ids)
  {
    hide Inv, HandedOut;
  }

  lemma StepIsBelow(st: State, p: Handed, handed: set<string>, ids: Counters)
    requires StepOk(st, p, handed, ids)
    ensures Below(st.ids, ids)
  {
  }

  lemma OneStep(st: State, handed: set<string>, titled: map<string, set<nat>>)
    requires Inv(st) && PastOf(handed, titled, st)
    ensures StepsOf([st], [Handed(handed, titled)], handed, st.ids)
  {
    LastStepOk(st, handed, titled);
    hide StepOk, Inv, PastOf;
  }

  lemma StepsSnoc(history: seq<State>, past: seq<Handed>, handed: set<string>, titled: map<string, set<nat>>, st: State)
    requires StepsOf(history, past, handed, st.ids) && Inv(st) && PastOf(handed, titled, st)
    ensures StepsOf(history + [st], past + [Handed(handed, titled)], handed, st.ids)
  {
    LastStepOk(st, handed, titled);
    hide StepOk, Inv, PastOf, Below;
    var steps := history + [st];
    forall j, k | 0 <= j <= k < |steps|
      ensures Below(steps[j].ids, steps[k].ids)
    {
      if k == |history| {
        StepOkBelow(history, past, handed, st, j);
      }
    }
  }

  lemma StepOkBelow(history: seq<State>, past: seq<Handed>, handed: set<string>, st: State, j: nat)
    requires StepsOf(history, past, handed, st.ids) && j <= |history|
    ensures Below((history + [st])[j].ids, st.ids)
  {
    if j < |history| {
      StepIsBelow(history[j], past[j], handed, st.ids);
    }
  }

  /** What was handed out up to a step was handed out up to every later one. */
  lemma PastGrows(history: seq<State>, past: seq<Handed>, handed: set<string>, ids: Counters, j: nat, k: nat)
    requires StepsOf(history, past, handed, ids) && j <= k < |history|
    ensures past[j].ids <= past[k].ids
  {
    hide Inv, HandedOut, Below, PastOf;
    assert StepOk(history[j], past[j], handed, ids) && StepOk(history[k], past[k], handed, ids);
    KnownBelow(handed, history[j].ids, history[k].ids);
  }

  // ----- What a file knows -----

  /** A session that answers like that of a step keeps what the step keeps, and knows what was handed out up to it. */
  lemma StepIsKnown(history: seq<State>, past: seq<Handed>, handed: set<string>, ids: Counters, k: nat, loaded: State)
    requires StepsOf(history, past, handed, ids) && k < |history| && Same(loaded, history[k])
    ensures Inv(loaded)
    ensures Known(handed, loaded.ids) == past[k].ids
    ensures KnownTitles(past[k].titles, loaded.rounds) == past[k].titles
  {
    hide Inv, HandedOut, Below, PastOf, Known, KnownTitles, SameCounts;
    assert StepOk(history[k], past[k], handed, ids);
    SameBack(loaded, history[k]);
    InvSame(history[k], loaded);
    KnownSame(handed, loaded.ids, history[k].ids);
    KnownTitlesAll(past[k].ids, past[k].titles, history[k], loaded.rounds);
  }

  lemma SameBack(s: State, t: State)
    requires Same(s, t)
    ensures Same(t, s)
  {
  }

  // ----- What can come again -----

  /** The counters after `more` more ids of a prefix. */
  function Ahead(ids: Counters, prefix: string, more: nat): Counters {
    ids[prefix := Count(ids, prefix) + more]
  }

  /** Some run of additions from these counters hands the id out. */
  ghost predicate ComesAgain(id: string, ids: Counters) {
    exists prefix, more: nat :: prefix in {DIFF_PREFIX, COMMENT_PREFIX, HOOK_PREFIX} && GivesNext(id, ids, prefix, more)
  }

  ghost predicate GivesNext(id: string, ids: Counters, prefix: string, more: nat) {
    id == NextId(Ahead(ids, prefix, more), prefix)
  }

  lemma GivenNextIsNew(id: string, ids: Counters, prefix: string, more: nat)
    requires prefix in {DIFF_PREFIX, COMMENT_PREFIX, HOOK_PREFIX} && GivesNext(id, ids, prefix, more)
    ensures !HandedOut(id, ids)
  {
    var ahead := Ahead(ids, prefix, more);
    NextIdIsNew(ahead, prefix);
    assert Below(ids, ahead);
    if HandedOut(id, ids) {
      HandedOutBelow(id, ids, ahead);
    }
  }

  /** An id handed out once comes again if and only if the counters do not know it. */
  lemma UnknownComesAgain(id: string, ids: Counters, later: Counters)
    requires HandedOut(id, later)
    ensures ComesAgain(id, ids) <==> !HandedOut(id, ids)
  {
    hide HandedOut;
    if ComesAgain(id, ids) {
      var prefix, more: nat :| prefix in {DIFF_PREFIX, COMMENT_PREFIX, HOOK_PREFIX} && GivesNext(id, ids, prefix, more);
      GivenNextIsNew(id, ids, prefix, more);
    }
    if !HandedOut(id, ids) {
      UnknownIsAhead(id, ids, later);
    }
  }

  lemma UnknownIsAhead(id: string, ids: Counters, later: Counters)
    requires HandedOut(id, later) && !HandedOut(id, ids)
    ensures ComesAgain(id, ids)
  {
    var prefix, n: nat :| prefix in {DIFF_PREFIX, COMMENT_PREFIX, HOOK_PREFIX} && NumberedBy(id, prefix, n, later);
    assert !NumberedBy(id, prefix, n, ids);
    assert GivesNext(id, ids, prefix, n - Count(ids, prefix) - 1);
  }

  /**
   * After a stop that left a file for step k, an id can come again if and only
   * if it was handed out after that step.
   */
  lemma LostIdsComeAgain(history: seq<State>, past: seq<Handed>, handed: set<string>, ids: Counters, k: nat, loaded: State, id: string)
    requires StepsOf(history, past, handed, ids) && k < |history| && Same(loaded, history[k])
    requires id in handed && HandedOut(id, ids)
    ensures ComesAgain(id, loaded.ids) <==> id !in past[k].ids
  {
    hide Inv, HandedOut, StepsOf, ComesAgain, KnownTitles;
    StepIsKnown(history, past, handed, ids, k, loaded);
    UnknownComesAgain(id, loaded.ids, ids);
  }

  /** Two round titles are one only if their numbers are. */
  lemma RoundTitlesDiffer(m: nat, n: nat)
    ensures Ops.RoundTitle(m) == Ops.RoundTitle(n) <==> m == n
  {
    if Ops.RoundTitle(m) == Ops.RoundTitle(n) {
      assert Ops.RoundTitle(m)[5..] == Decimal.Digits(m) && Ops.RoundTitle(n)[5..] == Decimal.Digits(n);
      Decimal.DigitsDistinct(m, n);
    }
  }

  /** The title of round n is the one the group is given after `more` more rounds. */
  ghost predicate TitlesNext(n: nat, group: string, rounds: Counters, more: nat) {
    Ops.RoundTitle(n) == Ops.RoundTitle(Count(Ahead(rounds, group, more), group) + 1)
  }

  /** The title of round n of a group comes again if and only if its counter has not got to n. */
  lemma LostTitlesComeAgain(n: nat, group: string, rounds: Counters)
    ensures (exists more: nat :: TitlesNext(n, group, rounds, more)) <==> n > Count(rounds, group)
  {
    var c := Count(rounds, group);
    if more: nat :| TitlesNext(n, group, rounds, more) {
      RoundTitlesDiffer(n, c + more + 1);
    }
    if n > c {
      assert TitlesNext(n, group, rounds, n - c - 1);
    }
  }
}
