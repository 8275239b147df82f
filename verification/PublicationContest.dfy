/** Twenty attempts are not enough for more than twenty publishers: a fair run in which
    publisher 0 loses every race, first from any contest and then from a concrete start. */
module PublicationContest {
  import opened Narinfo
  import opened Publication
  import opened PublicationRuns

  // ----- fair runs as reachability -----

  ghost predicate FairlyReaches(site: Site, s: System, t: System) {
    exists actions :: FairRuns(site, s, actions) && Runs(site, s, actions) && After(site, s, actions) == t
  }

  ghost predicate FairStep(site: Site, s: System, a: Action, t: System) {
    Enabled(site, s, a) && Fair(s, a) && Next(site, s, a) == t
  }

  lemma ReachNow(site: Site, s: System)
    ensures FairlyReaches(site, s, s)
  {
    assert FairRuns(site, s, []) && Runs(site, s, []) && After(site, s, []) == s;
  }

  lemma ReachStep(site: Site, s: System, a: Action, u: System, t: System)
    requires FairStep(site, s, a, u) && FairlyReaches(site, u, t)
    ensures FairlyReaches(site, s, t)
  {
    var rest :| FairRuns(site, u, rest) && Runs(site, u, rest) && After(site, u, rest) == t;
    var actions := [a] + rest;
    assert actions[1..] == rest;
    assert FairRuns(site, s, actions) && Runs(site, s, actions) && After(site, s, actions) == t;
  }

  // ----- single steps -----

  lemma StagePushes(site: Site, s: System, i: nat, at: Phase, made: Staged)
    requires i < |s.pubs| && s.pubs[i].phase == at && at.Staging? && at.base < |s.branch|
    requires made == Stage(site, s.branch[at.base], s.pubs[i].batch.notes) && made.Staged?
    requires made.tree != s.branch[at.base]
    ensures FairStep(site, s, StageFiles(i),
                     To(s, i, Pushing(at.attempt, at.base, at.start, made.tree, made.expected)))
  {
  }

  lemma Clones(site: Site, s: System, i: nat)
    requires i < |s.pubs| && s.pubs[i].phase.Verified? && s.branch != []
    ensures FairStep(site, s, Clone(i), To(s, i, Staging(0, |s.branch| - 1, |s.branch| - 1)))
  {
  }

  function Landed(s: System, i: nat, tree: Tree): System {
    s.(branch := s.branch + [tree], owners := s.owners + [i])
  }

  lemma Lands(site: Site, s: System, i: nat, at: Phase)
    requires i < |s.pubs| && s.pubs[i].phase == at && at.Pushing? && at.base + 1 == |s.branch|
    ensures FairStep(site, s, PushLands(i, true), To(Landed(s, i, at.tree), i, Returned(at.expected)))
  {
  }

  lemma IsRejected(site: Site, s: System, i: nat, at: Phase)
    requires i < |s.pubs| && s.pubs[i].phase == at && at.Pushing? && at.base + 1 < |s.branch|
    ensures FairStep(site, s, PushFails(i), To(s, i, Rejected(at.attempt, at.base, at.start)))
  {
  }

  /** What the publisher does after its attempt was lost: the next one, or giving up. */
  function AfterLoss(attempt: nat, last: nat, start: nat): Phase {
    if attempt + 1 < ATTEMPTS then Staging(attempt + 1, last, start) else Failed(Exhausted)
  }

  lemma Fetches(site: Site, s: System, i: nat, at: Phase)
    requires i < |s.pubs| && s.pubs[i].phase == at && at.Rejected? && at.base + 1 < |s.branch|
    ensures FairStep(site, s, Fetch(i), To(s, i, AfterLoss(at.attempt, |s.branch| - 1, at.start)))
  {
  }

  // ----- batches that stay stageable -----

  /** The metadata of the contestants: the first publishers, one more than the attempts. */
  function Notes(s: System): (notes: seq<Tree>)
    requires |s.pubs| > ATTEMPTS
    ensures |notes| == ATTEMPTS + 1
  {
    seq(ATTEMPTS + 1, k requires 0 <= k <= ATTEMPTS => s.pubs[k].batch.notes)
  }

  lemma NotesKept(s: System, i: nat, phase: Phase)
    requires i < |s.pubs| && |s.pubs| > ATTEMPTS
    ensures Notes(To(s, i, phase)) == Notes(s)
  {
  }

  /** A file of j that neither the tree nor any other contestant has. */
  predicate HasFresh(notes: seq<Tree>, head: Tree, j: nat)
    requires j < |notes|
  {
    exists name <- notes[j] ::
      name !in head && name != NOJEKYLL && forall k | 0 <= k < |notes| && k != j :: name !in notes[k]
  }

  /** Any two contestants agree, and none writes the marker. */
  predicate Unrelated(site: Site, notes: seq<Tree>) {
    forall j, k | 0 <= j < |notes| && 0 <= k < |notes| ::
      NOJEKYLL !in notes[j] && AllKept(site, notes[k], notes[j])
  }

  predicate Waits(j: nat, lost: nat) {
    j == 0 || lost < j
  }

  predicate CanStage(site: Site, notes: seq<Tree>, head: Tree, j: nat)
    requires j < |notes|
  {
    AllKept(site, head, notes[j]) && HasFresh(notes, head, j)
  }

  /** Every waiting batch can still be added to the tree, and would change it. */
  predicate AllStage(site: Site, notes: seq<Tree>, head: Tree, lost: nat) {
    && (NOJEKYLL in head ==> head[NOJEKYLL] == "")
    && forall j | 0 <= j < |notes| && Waits(j, lost) :: CanStage(site, notes, head, j)
  }

  lemma StagesAndChanges(site: Site, notes: seq<Tree>, head: Tree, lost: nat, j: nat)
    requires AllStage(site, notes, head, lost) && j < |notes| && Waits(j, lost)
    ensures var r := Stage(site, head, notes[j]); r.Staged? && r.tree != head
  {
    assert CanStage(site, notes, head, j);
  }

  lemma KeptThroughLanding(site: Site, head: Tree, won: Tree, mine: Tree)
    requires AllKept(site, head, mine) && AllKept(site, won, mine) && NOJEKYLL !in mine
    requires Stage(site, head, won).Staged?
    ensures AllKept(site, Stage(site, head, won).tree, mine)
  {
    var next := Stage(site, head, won).tree;
    forall name | name in mine ensures Keeps(site, next, name, mine[name]) {
      assert Keeps(site, head, name, mine[name]) && Keeps(site, won, name, mine[name]);
    }
  }

  lemma FreshThroughLanding(site: Site, notes: seq<Tree>, head: Tree, w: nat, j: nat)
    requires w < |notes| && j < |notes| && j != w && HasFresh(notes, head, j)
    requires Stage(site, head, notes[w]).Staged?
    ensures HasFresh(notes, Stage(site, head, notes[w]).tree, j)
  {
    var name :| name in notes[j] && name !in head && name != NOJEKYLL
             && forall k | 0 <= k < |notes| && k != j :: name !in notes[k];
    assert name !in Stage(site, head, notes[w]).tree;
  }

  /** Landing one batch leaves the other waiting batches stageable and fresh. */
  lemma AllStillStage(site: Site, notes: seq<Tree>, head: Tree, lost: nat)
    requires AllStage(site, notes, head, lost) && Unrelated(site, notes) && lost + 1 < |notes|
    requires Stage(site, head, notes[lost + 1]).Staged?
    ensures AllStage(site, notes, Stage(site, head, notes[lost + 1]).tree, lost + 1)
  {
    var next := Stage(site, head, notes[lost + 1]).tree;
    forall j | 0 <= j < |notes| && Waits(j, lost + 1) ensures CanStage(site, notes, next, j) {
      assert CanStage(site, notes, head, j);
      assert AllKept(site, notes[lost + 1], notes[j]) && NOJEKYLL !in notes[j];
      KeptThroughLanding(site, head, notes[lost + 1], notes[j]);
      FreshThroughLanding(site, notes, head, lost + 1, j);
    }
    assert NOJEKYLL !in notes[lost + 1];
  }

  // ----- one lost round -----

  /** Publisher 0 has lost `lost` races on a clone of the newest tree; the others above
      `lost` still wait with files of their own that nobody else has. */
  ghost predicate Racing(site: Site, s: System, lost: nat) {
    && s.branch != [] && |s.pubs| > ATTEMPTS && lost < ATTEMPTS
    && s.pubs[0].phase.Staging? && s.pubs[0].phase.attempt == lost && s.pubs[0].phase.base == |s.branch| - 1
    && (forall j | lost < j <= ATTEMPTS :: s.pubs[j].phase.Verified?)
    && AllStage(site, Notes(s), s.branch[|s.branch| - 1], lost)
    && Unrelated(site, Notes(s))
  }

  /** Both publishers hold a commit on the newest tree. */
  function BothPushing(s: System, start: nat, lost: nat, w: nat, own: Staged, won: Staged): System
    requires s.branch != [] && 0 < w < |s.pubs| && own.Staged? && won.Staged?
  {
    var last := |s.branch| - 1;
    To(To(s, 0, Pushing(lost, last, start, own.tree, own.expected)), w, Pushing(0, last, last, won.tree, won.expected))
  }

  /** The winner's commit landed and publisher 0 has fetched it, or given up. */
  function Lost(s: System, start: nat, lost: nat, w: nat, won: Staged): System
    requires 0 < w < |s.pubs| && won.Staged?
  {
    To(To(Landed(s, w, won.tree), 0, AfterLoss(lost, |s.branch|, start)), w, Returned(won.expected))
  }

  lemma ToTwice(s: System, i: nat, first: Phase, second: Phase)
    requires i < |s.pubs|
    ensures To(To(s, i, first), i, second) == To(s, i, second)
  {
    assert To(To(s, i, first), i, second).pubs == To(s, i, second).pubs;
  }

  /** Publisher 0 stages its commit, then the winner clones and stages its own. */
  lemma RoundOpens(site: Site, s: System, start: nat, lost: nat, w: nat, own: Staged, won: Staged, t: System)
    requires s.branch != [] && 0 < w < |s.pubs|
    requires s.pubs[0].phase == Staging(lost, |s.branch| - 1, start) && s.pubs[w].phase.Verified?
    requires own == Stage(site, s.branch[|s.branch| - 1], s.pubs[0].batch.notes)
    requires won == Stage(site, s.branch[|s.branch| - 1], s.pubs[w].batch.notes)
    requires own.Staged? && own.tree != s.branch[|s.branch| - 1] && won.Staged? && won.tree != s.branch[|s.branch| - 1]
    requires FairlyReaches(site, BothPushing(s, start, lost, w, own, won), t)
    ensures FairlyReaches(site, s, t)
  {
    var last := |s.branch| - 1;
    var s1 := To(s, 0, Pushing(lost, last, start, own.tree, own.expected));
    StagePushes(site, s, 0, s.pubs[0].phase, own);
    WinnerOpens(site, s1, w, won, t);
    ReachStep(site, s, StageFiles(0), s1, t);
  }

  lemma WinnerOpens(site: Site, s: System, w: nat, won: Staged, t: System)
    requires s.branch != [] && w < |s.pubs| && s.pubs[w].phase.Verified?
    requires won == Stage(site, s.branch[|s.branch| - 1], s.pubs[w].batch.notes)
    requires won.Staged? && won.tree != s.branch[|s.branch| - 1]
    requires FairlyReaches(site, To(s, w, Pushing(0, |s.branch| - 1, |s.branch| - 1, won.tree, won.expected)), t)
    ensures FairlyReaches(site, s, t)
  {
    var last := |s.branch| - 1;
    var cloned, pushing := Staging(0, last, last), Pushing(0, last, last, won.tree, won.expected);
    Clones(site, s, w);
    StagePushes(site, To(s, w, cloned), w, cloned, won);
    ToTwice(s, w, cloned, pushing);
    ReachStep(site, To(s, w, cloned), StageFiles(w), To(s, w, pushing), t);
    ReachStep(site, s, Clone(w), To(s, w, cloned), t);
  }

  /** The winner lands, and publisher 0's push fails and is followed by a fetch. */
  lemma RoundCloses(site: Site, s: System, start: nat, lost: nat, w: nat, own: Staged, won: Staged, t: System)
    requires s.branch != [] && 0 < w < |s.pubs| && own.Staged? && won.Staged?
    requires FairlyReaches(site, Lost(s, start, lost, w, won), t)
    ensures FairlyReaches(site, BothPushing(s, start, lost, w, own, won), t)
  {
    var last := |s.branch| - 1;
    var mine := Pushing(lost, last, start, own.tree, own.expected);
    var theirs := Pushing(0, last, last, won.tree, won.expected);
    var s3 := BothPushing(s, start, lost, w, own, won);
    var s4 := To(Landed(s3, w, won.tree), w, Returned(won.expected));
    var s5 := To(s4, 0, Rejected(lost, last, start));
    Lands(site, s3, w, theirs);
    IsRejected(site, s4, 0, mine);
    Fetches(site, s5, 0, Rejected(lost, last, start));
    LostIs(s, start, lost, w, own, won);
    ReachStep(site, s5, Fetch(0), Lost(s, start, lost, w, won), t);
    ReachStep(site, s4, PushFails(0), s5, t);
    ReachStep(site, s3, PushLands(w, true), s4, t);
  }

  lemma LostIs(s: System, start: nat, lost: nat, w: nat, own: Staged, won: Staged)
    requires s.branch != [] && 0 < w < |s.pubs| && own.Staged? && won.Staged?
    ensures var s3 := BothPushing(s, start, lost, w, own, won);
            var s4 := To(Landed(s3, w, won.tree), w, Returned(won.expected));
            var s5 := To(s4, 0, Rejected(lost, |s.branch| - 1, start));
            To(s5, 0, AfterLoss(lost, |s5.branch| - 1, start)) == Lost(s, start, lost, w, won)
  {
    var s3 := BothPushing(s, start, lost, w, own, won);
    var s4 := To(Landed(s3, w, won.tree), w, Returned(won.expected));
    var s5 := To(s4, 0, Rejected(lost, |s.branch| - 1, start));
    assert To(s5, 0, AfterLoss(lost, |s5.branch| - 1, start)).pubs == Lost(s, start, lost, w, won).pubs;
  }

  lemma LostKeepsRacing(site: Site, s: System, lost: nat, won: Staged)
    requires Racing(site, s, lost) && lost + 1 < ATTEMPTS
    requires won == Stage(site, s.branch[|s.branch| - 1], Notes(s)[lost + 1]) && won.Staged?
    ensures Racing(site, Lost(s, s.pubs[0].phase.start, lost, lost + 1, won), lost + 1)
  {
    var t := Lost(s, s.pubs[0].phase.start, lost, lost + 1, won);
    AllStillStage(site, Notes(s), s.branch[|s.branch| - 1], lost);
    assert Notes(t) == Notes(s);
    assert t.branch[|t.branch| - 1] == won.tree;
  }

  lemma WinnerStages(site: Site, s: System, lost: nat)
    requires Racing(site, s, lost)
    ensures Stage(site, s.branch[|s.branch| - 1], Notes(s)[lost + 1]).Staged?
  {
    StagesAndChanges(site, Notes(s), s.branch[|s.branch| - 1], lost, lost + 1);
  }

  /** One whole round, in which publisher `lost + 1` wins. */
  lemma OneRound(site: Site, s: System, lost: nat, won: Staged, t: System)
    requires Racing(site, s, lost)
    requires won == Stage(site, s.branch[|s.branch| - 1], Notes(s)[lost + 1]) && won.Staged?
    requires FairlyReaches(site, Lost(s, s.pubs[0].phase.start, lost, lost + 1, won), t)
    ensures FairlyReaches(site, s, t)
  {
    var head, start := s.branch[|s.branch| - 1], s.pubs[0].phase.start;
    StagesAndChanges(site, Notes(s), head, lost, 0);
    StagesAndChanges(site, Notes(s), head, lost, lost + 1);
    var own := Stage(site, head, Notes(s)[0]);
    RoundCloses(site, s, start, lost, lost + 1, own, won, t);
    RoundOpens(site, s, start, lost, lost + 1, own, won, t);
  }

  /** From a race, a fair run exists in which publisher 0 loses every race and gives up. */
  lemma {:induction false} LosesEveryRace(site: Site, s: System, lost: nat) returns (t: System)
    requires Racing(site, s, lost)
    ensures FairlyReaches(site, s, t) && |t.pubs| == |s.pubs| && t.pubs[0].phase == Failed(Exhausted)
    decreases ATTEMPTS - lost
  {
    WinnerStages(site, s, lost);
    var won := Stage(site, s.branch[|s.branch| - 1], Notes(s)[lost + 1]);
    t := Lost(s, s.pubs[0].phase.start, lost, lost + 1, won);
    if lost + 1 < ATTEMPTS {
      LostKeepsRacing(site, s, lost, won);
      t := LosesEveryRace(site, t, lost + 1);
    } else {
      ReachNow(site, t);
    }
    OneRound(site, s, lost, won, t);
  }

  // ----- from the start -----

  /** More publishers than the limit, each contestant with its own files and its NARs
      already public; those before `ready` have checked them, the others did nothing yet. */
  ghost predicate Contest(site: Site, s: System, ready: nat) {
    && s.branch != [] && |s.pubs| > ATTEMPTS && ready <= ATTEMPTS + 1
    && AllReady(site, s)
    && Through(s, ready)
    && AllStage(site, Notes(s), s.branch[|s.branch| - 1], 0)
    && Unrelated(site, Notes(s))
  }

  predicate AllReady(site: Site, s: System)
    requires |s.pubs| > ATTEMPTS
  {
    forall j | 0 <= j <= ATTEMPTS :: Ready(site, s.releases, s.pubs[j].batch)
  }

  predicate Through(s: System, ready: nat)
    requires |s.pubs| > ATTEMPTS
  {
    forall j | 0 <= j <= ATTEMPTS :: s.pubs[j].phase == if j < ready then Verified else Idle
  }

  function Snapshot(s: System, i: nat): map<string, Asset>
    requires i < |s.pubs| && s.pubs[i].batch.tag in s.releases
  {
    s.releases[s.pubs[i].batch.tag].assets
  }

  /** A publisher sees its release public. */
  lemma SeesPublic(site: Site, s: System, i: nat)
    requires i < |s.pubs| && s.pubs[i].phase.Idle? && Ready(site, s.releases, s.pubs[i].batch)
    ensures FairStep(site, s, Begin(i), To(s, i, Open))
  {
  }

  /** It then sees its NARs matching. */
  lemma SeesMatching(site: Site, s: System, i: nat)
    requires i < |s.pubs| && s.pubs[i].phase.Open? && s.pubs[i].batch.tag in s.releases
    requires Accepted(site, s.pubs[i].batch) && Serves(site, Snapshot(s, i), s.pubs[i].batch)
    ensures FairStep(site, s, ReadAssets(i, Snapshot(s, i)), To(s, i, Verified))
  {
    SnapshotKept(s, i);
    assert Checked(site, Snapshot(s, i), s.pubs[i].batch) == Verified;
  }

  lemma SnapshotKept(s: System, i: nat)
    requires i < |s.pubs| && s.pubs[i].batch.tag in s.releases
    ensures AssetsKept(Snapshot(s, i), s.releases[s.pubs[i].batch.tag].assets)
  {
  }

  lemma BecomesReady(site: Site, s: System, i: nat, t: System)
    requires i < |s.pubs| && s.pubs[i].phase.Idle? && Ready(site, s.releases, s.pubs[i].batch)
    requires FairlyReaches(site, To(s, i, Verified), t)
    ensures FairlyReaches(site, s, t)
  {
    var open := To(s, i, Open);
    assert open.pubs[i].batch == s.pubs[i].batch && open.releases == s.releases;
    SeesPublic(site, s, i);
    SeesMatching(site, open, i);
    ToTwice(s, i, Open, Verified);
    ReachStep(site, open, ReadAssets(i, Snapshot(open, i)), To(s, i, Verified), t);
    ReachStep(site, s, Begin(i), open, t);
  }

  lemma ThroughNext(s: System, ready: nat)
    requires |s.pubs| > ATTEMPTS && ready <= ATTEMPTS && Through(s, ready)
    ensures Through(To(s, ready, Verified), ready + 1)
  {
  }

  lemma ContestGoesOn(site: Site, s: System, ready: nat)
    requires Contest(site, s, ready) && ready <= ATTEMPTS
    ensures Contest(site, To(s, ready, Verified), ready + 1)
  {
    ThroughNext(s, ready);
    NotesKept(s, ready, Verified);
    AllReadyKept(site, s, ready, Verified);
  }

  lemma AllReadyKept(site: Site, s: System, i: nat, phase: Phase)
    requires |s.pubs| > ATTEMPTS && i < |s.pubs| && AllReady(site, s)
    ensures AllReady(site, To(s, i, phase))
  {
    var t := To(s, i, phase);
    forall j | 0 <= j <= ATTEMPTS ensures Ready(site, t.releases, t.pubs[j].batch) {
      assert t.pubs[j].batch == s.pubs[j].batch;
    }
  }

  lemma ContestRaces(site: Site, s: System)
    requires Contest(site, s, ATTEMPTS + 1)
    ensures Racing(site, To(s, 0, Staging(0, |s.branch| - 1, |s.branch| - 1)), 0)
  {
    NotesKept(s, 0, Staging(0, |s.branch| - 1, |s.branch| - 1));
  }

  /** So in any contest, with however many publishers above the limit, a fair run exists
      in which publisher 0 loses all its attempts. */
  lemma {:induction false} LosesFromTheStart(site: Site, s: System, ready: nat) returns (t: System)
    requires Contest(site, s, ready)
    ensures FairlyReaches(site, s, t) && |t.pubs| == |s.pubs| && t.pubs[0].phase == Failed(Exhausted)
    decreases ATTEMPTS + 1 - ready
  {
    if ready == ATTEMPTS + 1 {
      var race := To(s, 0, Staging(0, |s.branch| - 1, |s.branch| - 1));
      ContestRaces(site, s);
      Clones(site, s, 0);
      t := LosesEveryRace(site, race, 0);
      ReachStep(site, s, Clone(0), race, t);
    } else {
      ContestGoesOn(site, s, ready);
      t := LosesFromTheStart(site, To(s, ready, Verified), ready + 1);
      BecomesReady(site, s, ready, t);
    }
  }
}
