/**
 The release switch: code, configuration and database move together or go back together. Each step may
 fail; git resets, daemon stops and snapshot restores are taken to succeed.
 */
module Respawn {
  import opened Basics

  type Repo = string
  type Commit = string

  /** What a daemon starts on: the head of each repository, the configuration's head, and the database. */
  datatype World = World(heads: map<Repo, Commit>, config: Commit, database: string)

  /** A repository to fast-forward, and whether to push it afterwards. */
  datatype Entry = Entry(repo: Repo, push: bool)

  /** A release plan: how many `pre_switch` steps, whether it brings a config branch, whether dependencies change. */
  datatype Release = Release(steps: nat, bringsConfig: bool, lockChanged: bool)

  datatype Request = Request(entries: seq<Entry>, release: Option<Release>)

  datatype StepOutcome = StepOutcome(ok: bool, database: string)

  /**
   What the world outside answers. `merges` gives the head each fast-forward reaches (None: it fails);
   `configPrior` is the configuration's head once its own live edits are committed, `configAfter` its
   head after the merge; `ranDatabase` is the database after the first daemon ran.
   */
  datatype Answers = Answers(
    planReads: bool, snapshotTaken: bool, step: nat -> StepOutcome,
    configPrior: Commit, configAfter: Commit, configOk: bool,
    merges: nat -> Option<Commit>, syncOk: bool, apply: StepOutcome,
    healthy: bool, ranDatabase: string)

  // ---- Fast-forwards: all or none -----------------------------------------------------------

  /** The heads after the first `n` fast-forwards. */
  function HeadsAfter(heads: map<Repo, Commit>, entries: seq<Entry>, merges: nat -> Option<Commit>, n: nat)
    : map<Repo, Commit>
    requires n <= |entries|
  {
    if n == 0 then heads
    else
      var sofar := HeadsAfter(heads, entries, merges, n - 1);
      if merges(n - 1).Some? then sofar[entries[n - 1].repo := merges(n - 1).value] else sofar
  }

  function Repos(entries: seq<Entry>): seq<Repo> {
    seq(|entries|, i requires 0 <= i < |entries| => entries[i].repo)
  }

  /** `git reset --keep` of each repository of the list to its captured head. */
  function ResetAll(heads: map<Repo, Commit>, repos: seq<Repo>, prior: map<Repo, Commit>): map<Repo, Commit> {
    if repos == [] then heads
    else
      var sofar := ResetAll(heads, repos[..|repos| - 1], prior);
      var repo := repos[|repos| - 1];
      if repo in prior then sofar[repo := prior[repo]] else sofar
  }

  /** `heads` differs from `prior` at most in the repositories listed. */
  ghost predicate MovedOnly(heads: map<Repo, Commit>, prior: map<Repo, Commit>, repos: seq<Repo>) {
    heads.Keys == prior.Keys && forall r :: r in heads && r !in repos ==> heads[r] == prior[r]
  }

  lemma {:induction false} HeadsMoveOnly(heads: map<Repo, Commit>, entries: seq<Entry>,
                                        merges: nat -> Option<Commit>, n: nat)
    requires n <= |entries| && forall e :: e in entries ==> e.repo in heads
    ensures MovedOnly(HeadsAfter(heads, entries, merges, n), heads, Repos(entries[..n]))
  {
    if n > 0 {
      HeadsMoveOnly(heads, entries, merges, n - 1);
      assert Repos(entries[..n]) == Repos(entries[..n - 1]) + [entries[n - 1].repo];
      assert entries[n - 1] in entries;
    }
  }

  /** Resetting every repository that may have moved brings back all heads. */
  lemma {:induction false} ResetsBringBack(heads: map<Repo, Commit>, repos: seq<Repo>, prior: map<Repo, Commit>)
    requires heads.Keys == prior.Keys && forall r :: r in repos ==> r in prior
    ensures ResetAll(heads, repos, prior).Keys == prior.Keys
    ensures forall r :: r in prior ==>
              ResetAll(heads, repos, prior)[r] == if r in repos then prior[r] else heads[r]
  {
    if repos != [] {
      var rest := repos[..|repos| - 1];
      assert repos == rest + [repos[|repos| - 1]];
      ResetsBringBack(heads, rest, prior);
    }
  }

  lemma MovedComesBack(heads: map<Repo, Commit>, repos: seq<Repo>, prior: map<Repo, Commit>)
    requires MovedOnly(heads, prior, repos) && forall r :: r in repos ==> r in prior
    ensures ResetAll(heads, repos, prior) == prior
  {
    ResetsBringBack(heads, repos, prior);
  }

  // ---- The run as a function of the answers -------------------------------------------------

  /** Where the preparation of a release leaves things. */
  datatype Prepared = Prepared(world: World, failed: bool, configPrior: Option<Commit>, snapshot: Option<string>)

  /** The first `n` steps in turn, until one fails. */
  function RunSteps(database: string, step: nat -> StepOutcome, n: nat): StepOutcome {
    if n == 0 then StepOutcome(true, database)
    else
      var sofar := RunSteps(database, step, n - 1);
      if sofar.ok then step(n - 1) else sofar
  }

  function PrepareConfig(p: Prepared, a: Answers): Prepared {
    Prepared(p.world.(config := a.configAfter), !a.configOk,
             if !a.configOk && a.configAfter == a.configPrior then None else Some(a.configPrior), p.snapshot)
  }

  function Prepare(w: World, release: Option<Release>, a: Answers): Prepared {
    if release.None? then Prepared(w, false, None, None)
    else if !a.planReads then Prepared(w, true, None, None)
    else
      var snapshot := if a.snapshotTaken then Some(w.database) else None;
      var steps := if snapshot.Some? then RunSteps(w.database, a.step, release.value.steps)
                   else StepOutcome(false, w.database);
      var p1 := Prepared(w.(database := steps.database), !steps.ok, None, snapshot);
      var p2 := if !p1.failed && release.value.bringsConfig then PrepareConfig(p1, a) else p1;
      if p2.failed && snapshot.Some? && release.value.steps > 0 then p2.(world := p2.world.(database := w.database))
      else p2
  }

  /** Code, config, dependencies and database back to where they were. */
  function Undo(w: World, switched: seq<Repo>, prior: map<Repo, Commit>,
                configPrior: Option<Commit>, snapshot: Option<string>): World
  {
    World(ResetAll(w.heads, switched, prior),
          if configPrior.Some? then configPrior.value else w.config,
          if snapshot.Some? then snapshot.value else w.database)
  }

  /** How a run ends: the worlds daemons started on, whether the first was healthy, what was switched and pushed. */
  datatype Ending = Ending(
    starts: seq<World>, healthy: bool, error: bool, switched: seq<Repo>, pushed: seq<Repo>)

  /** After the switch: `release-apply`, or the report of an error. */
  datatype Applied = Applied(world: World, error: bool, switched: seq<Repo>, configPrior: Option<Commit>)

  function ApplyRelease(w: World, release: Option<Release>, error: bool, switched: seq<Repo>, prior: map<Repo, Commit>,
                        p: Prepared, a: Answers): Applied
  {
    if release.None? || error then Applied(w, error, switched, p.configPrior)
    else
      var synced := release.value.lockChanged ==> a.syncOk;
      var w1 := if synced then w.(database := a.apply.database) else w;
      if synced && a.apply.ok then Applied(w1, false, switched, p.configPrior)
      else Applied(Undo(w1, switched, prior, p.configPrior, p.snapshot), true, [], None)
  }

  function PushList(entries: seq<Entry>, switched: seq<Repo>): seq<Repo> {
    if entries == [] then []
    else
      var last := entries[|entries| - 1];
      PushList(entries[..|entries| - 1], switched) + if last.push && last.repo in switched then [last.repo] else []
  }

  predicate MergesUpTo(merges: nat -> Option<Commit>, n: nat) {
    forall i: nat | i < n :: merges(i).Some?
  }

  /** The switch and the release, up to the first start of a daemon. */
  function BeforeStart(w: World, request: Request, a: Answers): Applied {
    var p := Prepare(w, request.release, a);
    var entries := if p.failed then [] else request.entries;
    var moves := MergesUpTo(a.merges, |entries|);
    var w1 := if moves then p.world.(heads := HeadsAfter(p.world.heads, entries, a.merges, |entries|)) else p.world;
    ApplyRelease(w1, request.release, p.failed || !moves, if moves then Repos(entries) else [], w.heads, p, a)
  }

  function Run(w: World, request: Request, a: Answers): Ending {
    var p := Prepare(w, request.release, a);
    var entries := if p.failed then [] else request.entries;
    var r := BeforeStart(w, request, a);
    if !a.healthy && (r.switched != [] || r.configPrior.Some?) then
      var back := Undo(r.world.(database := a.ranDatabase), r.switched, w.heads, r.configPrior, p.snapshot);
      Ending([r.world, back], false, r.error, [], [])
    else
      Ending([r.world], a.healthy, r.error, r.switched, if a.healthy then PushList(entries, r.switched) else [])
  }

  // ---- All or nothing -----------------------------------------------------------------------

  /** Everything the request names can be named, and a failed config merge leaves its head where it was. */
  ghost predicate Sane(w: World, request: Request, a: Answers) {
    && (forall e :: e in request.entries ==> e.repo in w.heads)
    && (!a.configOk ==> a.configAfter == a.configPrior)
  }

  /** The run gets as far as merging the release's config branch. */
  predicate MergesConfig(w: World, release: Option<Release>, a: Answers) {
    && release.Some? && a.planReads && a.snapshotTaken
    && RunSteps(w.database, a.step, release.value.steps).ok && release.value.bringsConfig
  }

  /** The configuration as captured: with its own live edits committed, if a branch is merged into it. */
  function CapturedConfig(w: World, request: Request, a: Answers): Commit {
    if MergesConfig(w, request.release, a) then a.configPrior else w.config
  }

  /** Everything as captured. */
  function Captured(w: World, request: Request, a: Answers): World {
    World(w.heads, CapturedConfig(w, request, a), w.database)
  }

  /** The fast-forwards all succeeded, for at least one repository. */
  ghost predicate Switched(w: World, request: Request, a: Answers) {
    !Prepare(w, request.release, a).failed && request.entries != [] && MergesUpTo(a.merges, |request.entries|)
  }

  /** A release that was applied, or no release at all. */
  predicate ApplyWorks(request: Request, a: Answers) {
    request.release.None? || ((request.release.value.lockChanged ==> a.syncOk) && a.apply.ok)
  }

  /** What a successful switch starts the new daemon on. */
  function NewWorld(w: World, request: Request, a: Answers): World {
    World(HeadsAfter(w.heads, request.entries, a.merges, |request.entries|),
          if request.release.Some? && request.release.value.bringsConfig then a.configAfter else w.config,
          if request.release.Some? then a.apply.database else w.database)
  }

  /** Steps run in turn until one fails: all went well, or the first that failed is the last that ran. */
  lemma {:induction false} StepsExactly(database: string, step: nat -> StepOutcome, n: nat)
    ensures var r := RunSteps(database, step, n);
            && (r.ok <==> forall i: nat | i < n :: step(i).ok)
            && (r.ok ==> r.database == if n == 0 then database else step(n - 1).database)
            && (!r.ok ==> exists i: nat :: i < n && FirstFailure(step, i) && r.database == step(i).database)
  {
    if n > 0 {
      StepsExactly(database, step, n - 1);
      if RunSteps(database, step, n - 1).ok && !step(n - 1).ok {
        assert FirstFailure(step, n - 1);
      }
    }
  }

  ghost predicate FirstFailure(step: nat -> StepOutcome, i: nat) {
    !step(i).ok && forall j: nat | j < i :: step(j).ok
  }

  /** When a release gets as far as the switch, and what it is then switched on. */
  lemma PreparationExactly(w: World, release: Release, a: Answers)
    ensures var p := Prepare(w, Some(release), a);
            && (!p.failed <==>
                  && a.planReads && a.snapshotTaken && (forall i: nat | i < release.steps :: a.step(i).ok)
                  && (release.bringsConfig ==> a.configOk))
            && (!p.failed ==>
                  && p.world.heads == w.heads && p.snapshot == Some(w.database)
                  && p.world.database == (if release.steps == 0 then w.database else a.step(release.steps - 1).database)
                  && p.world.config == if release.bringsConfig then a.configAfter else w.config)
  {
    StepsExactly(w.database, a.step, release.steps);
    hide RunSteps;
  }

  /** A restart without a release and with nothing to switch starts one daemon on what was there, and pushes nothing. */
  lemma PlainRestart(w: World, a: Answers)
    ensures var e := Run(w, Request([], None), a);
            e.starts == [w] && e.pushed == [] && e.switched == [] && !e.error && e.healthy == a.healthy
  {
    assert Repos([]) == [];
  }

  lemma PreparedOk(w: World, request: Request, a: Answers)
    ensures var p := Prepare(w, request.release, a);
            && p.world.heads == w.heads
            && (p.snapshot.Some? ==> p.snapshot.value == w.database)
            && (!p.failed && request.release.Some? ==>
                  p.snapshot == Some(w.database)
                  && p.configPrior == (if request.release.value.bringsConfig then Some(a.configPrior) else None)
                  && p.world.config == (if request.release.value.bringsConfig then a.configAfter else w.config)
                  && MergesConfig(w, request.release, a) == request.release.value.bringsConfig)
            && (request.release.None? ==> p == Prepared(w, false, None, None))
  {
  }

  lemma UndoGoesBack(w: World, request: Request, a: Answers, from: World)
    requires Sane(w, request, a) && !Prepare(w, request.release, a).failed
    requires MovedOnly(from.heads, w.heads, Repos(request.entries))
    requires !(request.release.Some? && request.release.value.bringsConfig) ==> from.config == w.config
    ensures var p := Prepare(w, request.release, a);
            Undo(from, Repos(request.entries), w.heads, p.configPrior, p.snapshot)
            == World(w.heads, CapturedConfig(w, request, a),
                     if request.release.Some? then w.database else from.database)
  {
    PreparedOk(w, request, a);
    forall r | r in Repos(request.entries) ensures r in w.heads {
      var i :| 0 <= i < |request.entries| && request.entries[i].repo == r;
      assert request.entries[i] in request.entries;
    }
    MovedComesBack(from.heads, Repos(request.entries), w.heads);
    hide Prepare, MovedOnly, ResetAll;
  }

  lemma SwitchedHeads(w: World, request: Request, a: Answers)
    requires Sane(w, request, a)
    ensures MovedOnly(HeadsAfter(w.heads, request.entries, a.merges, |request.entries|), w.heads,
                      Repos(request.entries))
  {
    HeadsMoveOnly(w.heads, request.entries, a.merges, |request.entries|);
    assert request.entries[..|request.entries|] == request.entries;
  }

  /**
   Once the code has switched, the run ends in one of two ways: healthy on new code, new config and new
   database, exactly when the release applied and the daemon came up; or on the previous code with
   code and config back at their captured values, and with a release the database too.
   */
  lemma SwitchKeptOrUndone(w: World, request: Request, a: Answers)
    requires Sane(w, request, a) && Switched(w, request, a)
    ensures var e := Run(w, request, a); var last := e.starts[|e.starts| - 1];
            && (ApplyWorks(request, a) ==> e.starts[0] == NewWorld(w, request, a))
            && |e.starts| == (if ApplyWorks(request, a) && !a.healthy then 2 else 1)
            && if ApplyWorks(request, a) && a.healthy then
              e.healthy && !e.error && last == NewWorld(w, request, a) && e.switched == Repos(request.entries)
            else
              && e.switched == []
              && last.heads == w.heads && last.config == CapturedConfig(w, request, a)
              && last.database == (if request.release.Some? then w.database else a.ranDatabase)
  {
    var p := Prepare(w, request.release, a);
    var w1 := p.world.(heads := HeadsAfter(p.world.heads, request.entries, a.merges, |request.entries|));
    PreparedOk(w, request, a);
    SwitchedHeads(w, request, a);
    assert Repos(request.entries)[0] == request.entries[0].repo;
    var w2 := if request.release.Some? then w1.(database := a.apply.database) else w1;
    UndoGoesBack(w, request, a, w1);
    UndoGoesBack(w, request, a, w2);
    UndoGoesBack(w, request, a, w2.(database := a.ranDatabase));
    hide Prepare, Undo, MovedOnly, HeadsAfter, Repos;
  }

  lemma {:induction false} PushedWereSwitched(entries: seq<Entry>, switched: seq<Repo>, repo: Repo)
    ensures repo in PushList(entries, switched) <==>
            repo in switched && exists e :: e in entries && e.repo == repo && e.push
  {
    if entries != [] {
      var last := entries[|entries| - 1];
      PushedWereSwitched(entries[..|entries| - 1], switched, repo);
      assert entries == entries[..|entries| - 1] + [last];
      if e :| e in entries && e.repo == repo && e.push && e != last {
        assert e in entries[..|entries| - 1];
      }
    }
  }

  /** The repositories of the entries that ask to be pushed, by their places in the request. */
  ghost predicate PushedInOrder(pushed: seq<Repo>, entries: seq<Entry>, places: seq<nat>) {
    && |places| == |pushed|
    && (forall j | 0 <= j < |places| :: places[j] < |entries| && entries[places[j]].repo == pushed[j])
    && (forall j, k | 0 <= j < k < |places| :: places[j] < places[k])
    && (forall i: nat | i < |entries| :: i in places <==> entries[i].push)
  }

  lemma {:induction false} PushListInOrder(entries: seq<Entry>, switched: seq<Repo>) returns (places: seq<nat>)
    requires forall e :: e in entries ==> e.repo in switched
    ensures PushedInOrder(PushList(entries, switched), entries, places)
  {
    if entries == [] {
      places := [];
    } else {
      var rest, last := entries[..|entries| - 1], entries[|entries| - 1];
      assert entries == rest + [last];
      places := PushListInOrder(rest, switched);
      var before := places;
      if last.push {
        places := places + [|rest|];
      }
      forall i: nat | i < |entries| ensures i in places <==> entries[i].push {
        assert i < |rest| ==> (i in before <==> rest[i].push) && entries[i] == rest[i];
      }
    }
  }

  /**
   What a run pushes: nothing, unless the switch was made, the release applied and the daemon came up; then
   every entry of the request that asks for it, in the request's order.
   */
  lemma PushesExactly(w: World, request: Request, a: Answers) returns (places: seq<nat>)
    requires Sane(w, request, a)
    ensures var pushed := Run(w, request, a).pushed;
            if Switched(w, request, a) && ApplyWorks(request, a) && a.healthy then
              PushedInOrder(pushed, request.entries, places)
            else pushed == []
  {
    var p := Prepare(w, request.release, a);
    places := [];
    if p.failed {
      NothingSwitchedNothingPushed([]);
    } else if !MergesUpTo(a.merges, |request.entries|) || !ApplyWorks(request, a) {
      NothingSwitchedNothingPushed(request.entries);
    } else {
      forall e | e in request.entries ensures e.repo in Repos(request.entries) {
        var i :| 0 <= i < |request.entries| && request.entries[i] == e;
        assert Repos(request.entries)[i] == e.repo;
      }
      places := PushListInOrder(request.entries, Repos(request.entries));
    }
    assert request.entries == [] ==> PushList(request.entries, Repos(request.entries)) == [];
    hide Prepare, Undo, HeadsAfter, PushList, Repos, MergesUpTo;
  }

  /** A repository is pushed exactly if such an entry names it. */
  lemma PushedExactly(w: World, request: Request, a: Answers, repo: Repo)
    requires Sane(w, request, a)
    ensures repo in Run(w, request, a).pushed <==>
            && Switched(w, request, a) && ApplyWorks(request, a) && a.healthy
            && exists e :: e in request.entries && e.repo == repo && e.push
  {
    var places := PushesExactly(w, request, a);
    var pushed := Run(w, request, a).pushed;
    hide Run, Switched, ApplyWorks, Sane, PushedInOrder;
    if PushedInOrder(pushed, request.entries, places) {
      AmongThePushed(pushed, request.entries, places, repo);
    }
  }

  lemma AmongThePushed(pushed: seq<Repo>, entries: seq<Entry>, places: seq<nat>, repo: Repo)
    requires PushedInOrder(pushed, entries, places)
    ensures repo in pushed <==> exists e :: e in entries && e.repo == repo && e.push
  {
    if repo in pushed {
      var j :| 0 <= j < |pushed| && pushed[j] == repo;
      assert places[j] in places && entries[places[j]] in entries;
    }
    if e :| e in entries && e.repo == repo && e.push {
      var i: nat :| i < |entries| && entries[i] == e;
      var j :| 0 <= j < |places| && places[j] == i;
      assert pushed[j] == repo;
    }
  }

  /** Nothing is pushed but what the request asks for, from a switch that was kept by a healthy daemon. */
  lemma PushOnlyWhatWasKept(w: World, request: Request, a: Answers, repo: Repo)
    requires repo in Run(w, request, a).pushed
    ensures var e := Run(w, request, a);
            && e.healthy && !e.error && |e.starts| == 1 && repo in e.switched
            && Switched(w, request, a) && ApplyWorks(request, a)
            && exists entry :: entry in request.entries && entry.repo == repo && entry.push
  {
    var p := Prepare(w, request.release, a);
    var entries := if p.failed then [] else request.entries;
    PushedWereSwitched(entries, Run(w, request, a).switched, repo);
    hide Prepare, PushList, Undo, HeadsAfter;
  }

  /** Before the switch, a failed preparation leaves code, config and database as captured. */
  lemma FailedPreparationChangesNothing(w: World, request: Request, a: Answers)
    requires Sane(w, request, a) && Prepare(w, request.release, a).failed
    ensures var e := Run(w, request, a);
            && e.error && e.switched == [] && e.pushed == [] && |e.starts| == 1
            && e.starts[0] == Captured(w, request, a)
  {
    assert Repos([]) == [];
  }

  /**
   A fast-forward that fails after the preparation starts the old code on what the preparation left,
   unless the daemon stays unhealthy and a config branch was merged: only then all goes back.
   */
  lemma LateSwitchFailure(w: World, request: Request, a: Answers)
    requires Sane(w, request, a) && !Prepare(w, request.release, a).failed
    requires !MergesUpTo(a.merges, |request.entries|)
    ensures var e := Run(w, request, a); var p := Prepare(w, request.release, a);
            && e.error && e.pushed == [] && e.starts[|e.starts| - 1].heads == w.heads
            && e.starts == if !a.healthy && p.configPrior.Some? then [p.world, Captured(w, request, a)] else [p.world]
  {
    PreparedOk(w, request, a);
    NothingSwitchedNothingPushed(request.entries);
    NothingToReset(w.heads, w.heads);
    hide Prepare, MergesUpTo, HeadsAfter, PushList, ResetAll;
  }

  lemma NothingToReset(heads: map<Repo, Commit>, prior: map<Repo, Commit>)
    ensures ResetAll(heads, [], prior) == heads
  {
  }

  /** Where a release ends whose fast-forwards, if it has any, all succeeded. */
  lemma EndsAfterSwitch(w: World, request: Request, a: Answers)
    requires Sane(w, request, a) && request.release.Some?
    requires !Prepare(w, request.release, a).failed && MergesUpTo(a.merges, |request.entries|)
    ensures var e := Run(w, request, a); var p := Prepare(w, request.release, a);
            && e.starts[|e.starts| - 1] ==
               (if ApplyWorks(request, a) && (a.healthy || (request.entries == [] && p.configPrior.None?))
                then NewWorld(w, request, a) else Captured(w, request, a))
            && (a.healthy && ApplyWorks(request, a) ==> e.healthy)
            && (e.error <==> !ApplyWorks(request, a))
  {
    var p := Prepare(w, request.release, a);
    var w1 := p.world.(heads := HeadsAfter(p.world.heads, request.entries, a.merges, |request.entries|));
    var w2 := w1.(database := a.apply.database);
    PreparedOk(w, request, a);
    SwitchedHeads(w, request, a);
    assert request.entries != [] ==> Repos(request.entries)[0] == request.entries[0].repo;
    assert request.entries == [] ==> Repos(request.entries) == [];
    UndoGoesBack(w, request, a, w1);
    UndoGoesBack(w, request, a, w2);
    UndoGoesBack(w, request, a, w2.(database := a.ranDatabase));
    hide Prepare, Undo, MovedOnly, HeadsAfter, Repos, MergesUpTo, Sane, PushList, MergesConfig;
  }

  /** The new code runs healthily on new code, configuration and database. */
  ghost predicate Kept(w: World, request: Request, a: Answers) {
    var e := Run(w, request, a);
    e.healthy && !e.error && e.starts[|e.starts| - 1] == NewWorld(w, request, a)
  }

  /**
   What a run can leave behind. A fast-forward failed after the preparation, the undo was not reached,
   and the steps or the merge had changed something; or there was nothing to fast-forward and no config
   branch, and the daemon stays unhealthy on a database the release has changed.
   */
  ghost predicate LeavesSomething(w: World, request: Request, a: Answers) {
    var p := Prepare(w, request.release, a);
    && !p.failed
    && (p.configPrior.None? || a.healthy)
    && if MergesUpTo(a.merges, |request.entries|) then
         ApplyWorks(request, a) && !a.healthy && request.entries == [] && a.apply.database != w.database
       else
         p.world.database != w.database || p.world.config != CapturedConfig(w, request, a)
  }

  /** A release is kept whole, or all is as captured when the last daemon starts, exactly if nothing is left behind. */
  lemma ReleaseKeptOrCaptured(w: World, request: Request, a: Answers)
    requires Sane(w, request, a) && request.release.Some?
    ensures var e := Run(w, request, a);
            Kept(w, request, a) || e.starts[|e.starts| - 1] == Captured(w, request, a)
            <==> !LeavesSomething(w, request, a)
  {
    PreparedOk(w, request, a);
    if Prepare(w, request.release, a).failed {
      FailedPreparationChangesNothing(w, request, a);
    } else if MergesUpTo(a.merges, |request.entries|) {
      EndsAfterSwitch(w, request, a);
      NothingMoves(w.heads, a.merges);
    } else {
      LateSwitchFailure(w, request, a);
    }
    hide Prepare, Run, MergesUpTo, HeadsAfter, Sane, MergesConfig, ApplyWorks;
  }

  lemma NothingMoves(heads: map<Repo, Commit>, merges: nat -> Option<Commit>)
    ensures HeadsAfter(heads, [], merges, 0) == heads
  {
  }

  /** The database a step changed stays with the old code, whether the daemon comes up or not. */
  lemma AStepIsLeftBehind(healthy: bool)
    ensures var w := World(map["tasque" := "old"], "c0", "d0");
            var request := Request([Entry("tasque", false)], Some(Release(1, false, false)));
            var a := Answers(true, true, i => StepOutcome(true, "d1"), "c0", "c0", true,
                             i => None, true, StepOutcome(true, "d1"), healthy, "d1");
            Sane(w, request, a) && Run(w, request, a).starts == [World(map["tasque" := "old"], "c0", "d1")]
  {
    var step: nat -> StepOutcome := i => StepOutcome(true, "d1");
    assert RunSteps("d0", step, 1) == step(0);
  }

  /** So does the database of a release without code or config, under a daemon that stays unhealthy. */
  lemma ADatabaseIsLeftBehind()
    ensures var w := World(map[], "c0", "d0");
            var request := Request([], Some(Release(0, false, false)));
            var a := Answers(true, true, i => StepOutcome(true, "d0"), "c0", "c0", true,
                             i => None, true, StepOutcome(true, "d1"), false, "d1");
            Sane(w, request, a) && Run(w, request, a).starts == [World(map[], "c0", "d1")]
  {
    assert Repos([]) == [];
  }

  lemma {:induction false} NothingSwitchedNothingPushed(entries: seq<Entry>)
    ensures PushList(entries, []) == []
  {
    if entries != [] {
      NothingSwitchedNothingPushed(entries[..|entries| - 1]);
    }
  }

  // ---- The process --------------------------------------------------------------------------

  class Host {
    var heads: map<Repo, Commit>
    var config: Commit
    var database: string
    /** The world each daemon was started on. */
    var starts: seq<World>
    var pushed: seq<Repo>

    ghost function Now(): World
      reads this
    {
      World(heads, config, database)
    }

    /** `switch_repos`: fast-forward each repository; on a failure undo the ones done. */
    method SwitchRepos(entries: seq<Entry>, merges: nat -> Option<Commit>, prior: map<Repo, Commit>)
      returns (done: seq<Repo>, failed: bool)
      requires prior == heads && forall e :: e in entries ==> e.repo in heads
      modifies this`heads
      ensures failed <==> !MergesUpTo(merges, |entries|)
      ensures failed ==> heads == prior && done == []
      ensures !failed ==> heads == HeadsAfter(prior, entries, merges, |entries|) && done == Repos(entries)
    {
      done := [];
      for i := 0 to |entries|
        invariant MergesUpTo(merges, i) && done == Repos(entries[..i])
        invariant heads == HeadsAfter(prior, entries, merges, i)
      {
        var merged := merges(i);
        if merged.None? {
          HeadsMoveOnly(prior, entries, merges, i);
          BackInPrior(entries[..i], prior);
          ResetRepos(done, prior);
          MovedComesBack(HeadsAfter(prior, entries, merges, i), done, prior);
          return [], true;
        }
        heads := heads[entries[i].repo := merged.value];
        assert Repos(entries[..i + 1]) == Repos(entries[..i]) + [entries[i].repo];
        done := done + [entries[i].repo];
      }
      assert entries[..|entries|] == entries;
      failed := false;
    }

    method ResetRepos(repos: seq<Repo>, prior: map<Repo, Commit>)
      requires forall r :: r in repos ==> r in prior
      modifies this`heads
      ensures heads == ResetAll(old(heads), repos, prior)
    {
      ghost var before := heads;
      for i := 0 to |repos|
        invariant heads == ResetAll(before, repos[..i], prior)
      {
        assert repos[..i + 1][..i] == repos[..i] && repos[i] in repos;
        heads := heads[repos[i] := prior[repos[i]]];
      }
      assert repos[..|repos|] == repos;
    }

    /** The inner `undo` of `main`. */
    method UndoSwitch(switched: seq<Repo>, prior: map<Repo, Commit>,
                      configPrior: Option<Commit>, snapshot: Option<string>)
      requires forall r :: r in switched ==> r in prior
      modifies this`heads, this`config, this`database
      ensures Now() == Undo(old(Now()), switched, prior, configPrior, snapshot)
    {
      ResetRepos(switched, prior);
      if configPrior.Some? {
        config := configPrior.value;
      }
      if snapshot.Some? {
        database := snapshot.value;
      }
    }

    method StartDaemon()
      modifies this`starts
      ensures starts == old(starts) + [Now()]
    {
      starts := starts + [World(heads, config, database)];
    }

    /** The release part of `main` before the switch. */
    method PrepareRelease(release: Option<Release>, a: Answers)
      returns (failed: bool, configPrior: Option<Commit>, snapshot: Option<string>)
      modifies this`config, this`database
      ensures Prepared(Now(), failed, configPrior, snapshot) == Prepare(old(Now()), release, a)
    {
      failed, configPrior, snapshot := false, None, None;
      if release.None? {
        return;
      }
      if !a.planReads {
        failed := true;
        return;
      }
      ghost var before := database;
      if a.snapshotTaken {
        snapshot := Some(database);
      } else {
        failed := true;
      }
      var i := 0;
      while i < release.value.steps && !failed
        invariant i <= release.value.steps && config == old(config)
        invariant failed == (snapshot.None? || !RunSteps(before, a.step, i).ok)
        invariant database == if snapshot.Some? then RunSteps(before, a.step, i).database else before
      {
        var outcome := a.step(i);
        database := outcome.database;
        failed := !outcome.ok;
        i := i + 1;
      }
      if snapshot.Some? {
        StepsStop(before, a.step, i, release.value.steps);
      }
      if !failed && release.value.bringsConfig {
        config := a.configAfter;
        configPrior, failed := Some(a.configPrior), !a.configOk;
        if failed && a.configAfter == a.configPrior {
          configPrior := None;
        }
      }
      if failed && snapshot.Some? && release.value.steps > 0 {
        database := snapshot.value;
      }
    }

    /** `main`, once the old daemon has exited. */
    method RunSwitch(request: Request, a: Answers) returns (ok: bool, switched: seq<Repo>)
      requires forall e :: e in request.entries ==> e.repo in heads
      modifies this
      ensures var e := Run(old(Now()), request, a);
              && starts == old(starts) + e.starts && pushed == old(pushed) + e.pushed
              && switched == e.switched && ok == (e.healthy && !e.error)
    {
      hide Prepare, Undo, HeadsAfter, Repos, PushList, ApplyRelease;
      var prior := heads;
      var error, configPrior, snapshot, entries;
      switched, error, configPrior, snapshot, entries := SwitchAndApply(request, a);
      StartDaemon();
      if !a.healthy && (switched != [] || configPrior.Some?) {
        database := a.ranDatabase;
        UndoSwitch(switched, prior, configPrior, snapshot);
        StartDaemon();
        switched := [];
      }
      if a.healthy {
        PushSwitched(entries, switched);
      }
      ok := a.healthy && !error;
    }

    method SwitchAndApply(request: Request, a: Answers)
      returns (switched: seq<Repo>, error: bool, configPrior: Option<Commit>, snapshot: Option<string>,
               entries: seq<Entry>)
      requires forall e :: e in request.entries ==> e.repo in heads
      modifies this`heads, this`config, this`database
      ensures Applied(Now(), error, switched, configPrior) == BeforeStart(old(Now()), request, a)
      ensures snapshot == Prepare(old(Now()), request.release, a).snapshot
      ensures entries == if Prepare(old(Now()), request.release, a).failed then [] else request.entries
      ensures forall r :: r in switched ==> r in old(heads)
    {
      ghost var w := Now();
      var prior := heads;
      PreparedOk(w, request, a);
      hide Prepare, Undo, HeadsAfter, Repos;
      var failed;
      failed, configPrior, snapshot := PrepareRelease(request.release, a);
      entries := if failed then [] else request.entries;
      var switchFailed;
      switched, switchFailed := SwitchRepos(entries, a.merges, prior);
      BackInPrior(entries, prior);
      error := failed || switchFailed;
      if request.release.Some? && !error {
        var applied := ApplyStep(request.release.value, a);
        if !applied {
          UndoSwitch(switched, prior, configPrior, snapshot);
          switched, configPrior, error := [], None, true;
        }
      }
    }

    method ApplyStep(release: Release, a: Answers) returns (applied: bool)
      modifies this`database
      ensures applied == ((release.lockChanged ==> a.syncOk) && a.apply.ok)
      ensures database == if release.lockChanged ==> a.syncOk then a.apply.database else old(database)
    {
      if release.lockChanged && !a.syncOk {
        return false;
      }
      database := a.apply.database;
      return a.apply.ok;
    }

    method PushSwitched(entries: seq<Entry>, switched: seq<Repo>)
      modifies this`pushed
      ensures pushed == old(pushed) + PushList(entries, switched)
    {
      ghost var before := pushed;
      for i := 0 to |entries|
        invariant pushed == before + PushList(entries[..i], switched)
      {
        assert entries[..i + 1][..i] == entries[..i];
        if entries[i].repo in switched && entries[i].push {
          pushed := pushed + [entries[i].repo];
        }
      }
      assert entries[..|entries|] == entries;
    }
  }

  lemma {:induction false} StepsStop(database: string, step: nat -> StepOutcome, i: nat, n: nat)
    requires i <= n && (i == n || !RunSteps(database, step, i).ok)
    ensures RunSteps(database, step, n) == RunSteps(database, step, i)
  {
    if i < n {
      StepsStop(database, step, i, n - 1);
    }
  }

  lemma BackInPrior(entries: seq<Entry>, prior: map<Repo, Commit>)
    requires forall e :: e in entries ==> e.repo in prior
    ensures forall r :: r in Repos(entries) ==> r in prior
  {
    forall r | r in Repos(entries) ensures r in prior {
      var i :| 0 <= i < |entries| && entries[i].repo == r;
      assert entries[i] in entries;
    }
  }
}
