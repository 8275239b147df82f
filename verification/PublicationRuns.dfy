/** Safety over whole runs of the publication machine: what is on the index
    branch, what stays there, and why nobody runs out of its push attempts. */
module PublicationRuns {
  import opened Narinfo
  import opened Publication

  // ----- runs -----

  ghost predicate Runs(site: Site, s: System, actions: seq<Action>)
    decreases |actions|
  {
    actions == [] || (Enabled(site, s, actions[0]) && Runs(site, Next(site, s, actions[0]), actions[1..]))
  }

  ghost function After(site: Site, s: System, actions: seq<Action>): System
    requires Runs(site, s, actions)
    decreases |actions|
  {
    if actions == [] then s else After(site, Next(site, s, actions[0]), actions[1..])
  }

  ghost predicate Reachable(site: Site, s: System) {
    exists first, actions :: Initial(site, first) && Runs(site, first, actions) && After(site, first, actions) == s
  }

  lemma {:induction false} RunKeepsInv(site: Site, s: System, actions: seq<Action>)
    requires Inv(site, s) && Runs(site, s, actions)
    ensures Inv(site, After(site, s, actions))
    decreases |actions|
  {
    if actions != [] {
      StepKeepsInv(site, s, actions[0]);
      RunKeepsInv(site, Next(site, s, actions[0]), actions[1..]);
    }
  }

  lemma ReachableInv(site: Site, s: System)
    requires Reachable(site, s)
    ensures Inv(site, s)
  {
    var first, actions :| Initial(site, first) && Runs(site, first, actions) && After(site, first, actions) == s;
    RunKeepsInv(site, first, actions);
  }

  /** Every metadata file that is or ever was on the branch names an asset that is
      public now and has the recorded size and hash. */
  lemma EveryRecordBacked(site: Site, s: System, k: nat, name: string)
    requires Reachable(site, s) && k < |s.branch|
    requires name in s.branch[k] && IsNarinfo(name)
    ensures exists tag, nar :: BackedBy(site, s.releases, s.branch[k][name], tag, nar)
  {
    ReachableInv(site, s);
    assert TreeBacked(site, s.releases, s.branch[k]);
    assert Backed(site, s.releases, s.branch[k][name]);
  }

  /** No later tree loses or changes an entry of an earlier one. */
  lemma {:induction false} BranchOnlyGrows(site: Site, s: System, actions: seq<Action>)
    requires Inv(site, s) && Runs(site, s, actions)
    ensures var t := After(site, s, actions);
            && s.branch <= t.branch
            && forall k, m | 0 <= k < |s.branch| && k <= m < |t.branch| :: SubMap(s.branch[k], t.branch[m])
    decreases |actions|
  {
    if actions != [] {
      var n := Next(site, s, actions[0]);
      StepGrows(site, s, actions[0]);
      StepKeepsInv(site, s, actions[0]);
      BranchOnlyGrows(site, n, actions[1..]);
      forall k, m | 0 <= k < |s.branch| && k <= m < |After(site, s, actions).branch|
        ensures SubMap(s.branch[k], After(site, s, actions).branch[m])
      {
        assert s.branch[k] == n.branch[k];
      }
    }
  }

  lemma {:induction false} PublicationStays(site: Site, s: System, actions: seq<Action>)
    requires Inv(site, s) && Runs(site, s, actions)
    ensures ReleasesKept(s.releases, After(site, s, actions).releases)
    decreases |actions|
  {
    if actions != [] {
      StepGrows(site, s, actions[0]);
      StepKeepsInv(site, s, actions[0]);
      PublicationStays(site, Next(site, s, actions[0]), actions[1..]);
    }
  }

  lemma {:induction false} ReturnedStays(site: Site, s: System, actions: seq<Action>, i: nat)
    requires Runs(site, s, actions)
    requires i < |s.pubs| && s.pubs[i].phase.Returned?
    ensures i < |After(site, s, actions).pubs| && After(site, s, actions).pubs[i] == s.pubs[i]
    decreases |actions|
  {
    if actions != [] {
      ReturnedStays(site, Next(site, s, actions[0]), actions[1..], i);
    }
  }

  /** The bytes a publisher returned cover its whole batch, are on the branch then,
      and are still there after any further steps, whether its own push landed
      with a reply, landed without one, or was not needed. */
  lemma ReturnedBytesStay(site: Site, s: System, actions: seq<Action>, i: nat)
    requires Reachable(site, s) && Runs(site, s, actions)
    requires i < |s.pubs| && s.pubs[i].phase.Returned?
    ensures var t := After(site, s, actions);
            var bytes := s.pubs[i].phase.bytes;
            && s.branch != []
            && Answers(site, bytes, s.pubs[i].batch.notes)
            && forall m | |s.branch| - 1 <= m < |t.branch| :: SubMap(bytes, t.branch[m])
  {
    ReachableInv(site, s);
    BranchOnlyGrows(site, s, actions);
    ReturnedOk(site, s, i);
    SubMapsAbove(s.pubs[i].phase.bytes, s.branch, After(site, s, actions).branch);
  }

  lemma ReturnedOk(site: Site, s: System, i: nat)
    requires Inv(site, s) && i < |s.pubs| && s.pubs[i].phase.Returned?
    ensures Answers(site, s.pubs[i].phase.bytes, s.pubs[i].batch.notes)
    ensures s.branch != [] && SubMap(s.pubs[i].phase.bytes, s.branch[|s.branch| - 1])
  {
    assert PublisherOk(site, s, s.pubs[i]);
  }

  lemma SubMapsAbove(bytes: Tree, before: seq<Tree>, after: seq<Tree>)
    requires before != [] && SubMap(bytes, before[|before| - 1])
    requires forall k, m | 0 <= k < |before| && k <= m < |after| :: SubMap(before[k], after[m])
    ensures forall m | |before| - 1 <= m < |after| :: SubMap(bytes, after[m])
  {
    var last := |before| - 1;
    forall m | last <= m < |after| ensures SubMap(bytes, after[m]) {
      assert SubMap(before[last], after[m]);
    }
  }

  /** Keeping another publisher's first URL is sound: the asset that the retained
      file names has the size and hash of the NAR this publisher prepared itself. */
  lemma RetainedUrlServesOwnNar(site: Site, s: System, i: nat, name: string)
    requires Reachable(site, s)
    requires i < |s.pubs| && s.pubs[i].phase.Returned?
    requires name in s.pubs[i].batch.notes && IsNarinfo(name)
    ensures var batch := s.pubs[i].batch;
            && name in s.pubs[i].phase.bytes
            && RecordAccepted(site, batch, name)
            && exists tag, nar ::
                 && BackedBy(site, s.releases, s.pubs[i].phase.bytes[name], tag, nar)
                 && Matches(site, s.releases[tag].assets[nar], batch.nars[NarName(site, batch, name)])
  {
    ReachableInv(site, s);
    var p := s.pubs[i];
    assert PublisherOk(site, s, p);
    var text := p.phase.bytes[name];
    assert s.branch[|s.branch| - 1][name] == text;
    assert TreeBacked(site, s.releases, s.branch[|s.branch| - 1]);
    var tag, nar :| BackedBy(site, s.releases, text, tag, nar);
    if text != p.batch.notes[name] {
      EquivalentFields(site, name, text, p.batch.notes[name], "FileSize");
      EquivalentFields(site, name, text, p.batch.notes[name], "FileHash");
    }
    assert Matches(site, s.releases[tag].assets[nar], p.batch.nars[NarName(site, p.batch, name)]);
  }

  // ----- attempts -----

  /** A push fails only because the branch moved, and no reply is lost. */
  predicate Fair(s: System, a: Action) {
    match a
    case PushLands(_, replied) => replied
    case PushFails(i) => i < |s.pubs| && s.pubs[i].phase.Pushing? && s.pubs[i].phase.base + 1 < |s.branch|
    case _ => true
  }

  ghost predicate FairRuns(site: Site, s: System, actions: seq<Action>)
    decreases |actions|
  {
    actions == [] ||
    (Enabled(site, s, actions[0]) && Fair(s, actions[0]) && FairRuns(site, Next(site, s, actions[0]), actions[1..]))
  }

  predicate Distinct(owners: seq<nat>) {
    forall k, m | 0 <= k < m < |owners| :: owners[k] != owners[m]
  }

  /** A publisher's lost attempts are matched by commits that others landed since it cloned. */
  predicate Matched(s: System, attempt: nat, base: nat, start: nat) {
    start + attempt <= base < |s.branch|
  }

  predicate Counted(s: System) {
    && |s.branch| == 1 + |s.owners|
    && Distinct(s.owners)
    && (forall o <- s.owners :: o < |s.pubs| && s.pubs[o].phase.Returned?)
    && forall p <- s.pubs ::
         match p.phase
         case Staging(attempt, base, start) => Matched(s, attempt, base, start)
         case Pushing(attempt, base, start, _, _) => Matched(s, attempt, base, start)
         case Rejected(attempt, base, start) => Matched(s, attempt, base, start) && base + 1 < |s.branch|
         case _ => true
  }

  lemma {:induction false} DistinctBelow(owners: seq<nat>, n: nat)
    requires Distinct(owners)
    requires forall o <- owners :: o < n
    ensures |owners| <= n
  {
    if owners != [] {
      assert owners[0] in owners;
      if n - 1 in owners {
        var k :| 0 <= k < |owners| && owners[k] == n - 1;
        var rest := owners[..k] + owners[k + 1..];
        forall o | o in rest ensures o < n - 1 {
          assert o in owners;
        }
        DistinctBelow(rest, n - 1);
      } else {
        DistinctBelow(owners, n - 1);
      }
    }
  }

  /** A publisher that has not returned leaves at most the others to land commits. */
  lemma OthersOnly(s: System, i: nat)
    requires Counted(s) && i < |s.pubs| && !s.pubs[i].phase.Returned?
    ensures |s.owners| < |s.pubs|
  {
    assert i !in s.owners;
    DistinctBelow(s.owners + [i], |s.pubs|);
  }

  lemma FairStepCounted(site: Site, s: System, a: Action)
    requires Counted(s) && |s.pubs| <= ATTEMPTS
    requires Enabled(site, s, a) && Fair(s, a)
    ensures Counted(Next(site, s, a))
    ensures forall p <- Next(site, s, a).pubs :: p.phase in {Failed(PushError), Failed(Exhausted)} ==> p in s.pubs
  {
    var t := Next(site, s, a);
    match a
    case Fetch(i) =>
      OthersOnly(s, i);
    case PushLands(i, _) =>
      assert i !in s.owners;
    case _ =>
  }

  // ----- clashes -----

  function Batches(s: System): set<Batch> {
    set p <- s.pubs :: p.batch
  }

  lemma BatchesKept(s: System, t: System)
    requires SameBatches(s, t)
    ensures Batches(s) == Batches(t)
  {
    forall b | b in Batches(s) ensures b in Batches(t) {
      var i :| 0 <= i < |s.pubs| && s.pubs[i].batch == b;
      assert t.pubs[i].batch == b;
    }
    forall b | b in Batches(t) ensures b in Batches(s) {
      var i :| 0 <= i < |t.pubs| && t.pubs[i].batch == b;
      assert s.pubs[i].batch == b;
    }
  }

  /** Any two writers of a name, and the first tree, agree up to the URL line. */
  ghost predicate Agreeing(site: Site, s: System) {
    s.branch != [] && AllAgree(site, s.branch[0], Batches(s))
  }

  ghost predicate AllAgree(site: Site, first: Tree, batches: set<Batch>) {
    && (NOJEKYLL in first ==> first[NOJEKYLL] == "")
    && forall b <- batches :: AllKept(site, first, b.notes) && forall c <- batches :: AllKept(site, c.notes, b.notes)
  }

  /** Every entry of a tree comes from the first tree or from some accepted batch. */
  ghost predicate Sourced(site: Site, s: System, tree: Tree)
    requires s.branch != []
  {
    ComesFrom(site, s.branch[0], Batches(s), tree)
  }

  ghost predicate ComesFrom(site: Site, first: Tree, batches: set<Batch>, tree: Tree) {
    forall name <- tree ::
      || (name in first && tree[name] == first[name])
      || (name == NOJEKYLL && tree[name] == "")
      || exists b <- batches :: Accepted(site, b) && name in b.notes && tree[name] == b.notes[name]
  }

  ghost predicate Healthy(site: Site, s: System) {
    && Inv(site, s) && Counted(s) && Agreeing(site, s)
    && (forall k | 0 <= k < |s.branch| :: Sourced(site, s, s.branch[k]))
    && forall p <- s.pubs :: p.phase.Failed? ==> p.phase.why == Refused
  }

  lemma SourcedNeverClashes(site: Site, first: Tree, batches: set<Batch>, tree: Tree, batch: Batch)
    requires AllAgree(site, first, batches) && ComesFrom(site, first, batches, tree)
    requires batch in batches && Accepted(site, batch)
    ensures Stage(site, tree, batch.notes).Staged?
  {
    AcceptedNames(site, batch);
    forall name | name in batch.notes ensures Keeps(site, tree, name, batch.notes[name]) {
      if name in tree {
        if name in first && tree[name] == first[name] {
          assert Keeps(site, first, name, batch.notes[name]);
        } else {
          var b :| b in batches && Accepted(site, b) && name in b.notes && tree[name] == b.notes[name];
          assert Keeps(site, b.notes, name, batch.notes[name]);
        }
      }
    }
    if NOJEKYLL in tree && tree[NOJEKYLL] != "" {
      var b :| b in batches && Accepted(site, b) && NOJEKYLL in b.notes;
      AcceptedNames(site, b);
    }
  }

  /** A commit adds only its publisher's own files and the marker. */
  lemma CommitComesFrom(site: Site, first: Tree, batches: set<Batch>, tree: Tree, batch: Batch)
    requires ComesFrom(site, first, batches, tree) && batch in batches && Accepted(site, batch)
    requires Stage(site, tree, batch.notes).Staged?
    ensures ComesFrom(site, first, batches, Stage(site, tree, batch.notes).tree)
  {
  }

  lemma LandedSourced(site: Site, s: System, p: Publisher)
    requires Healthy(site, s) && p in s.pubs && p.phase.Pushing?
    ensures Sourced(site, s, p.phase.tree)
  {
    assert PublisherOk(site, s, p);
    assert Sourced(site, s, s.branch[p.phase.base]);
    assert p.batch in Batches(s);
    CommitComesFrom(site, s.branch[0], Batches(s), s.branch[p.phase.base], p.batch);
  }

  lemma FairStepSourced(site: Site, s: System, a: Action, k: nat)
    requires Healthy(site, s) && Enabled(site, s, a) && k < |Next(site, s, a).branch|
    ensures s.branch != [] && Sourced(site, Next(site, s, a), Next(site, s, a).branch[k])
  {
    var t := Next(site, s, a);
    StepGrowsBranch(site, s, a);
    StepKeepsBatches(site, s, a);
    if k == |s.branch| {
      LandedSourced(site, s, s.pubs[a.i]);
    }
    BatchesKept(s, t);
  }

  /** Staging never clashes, and nothing else but a refusal fails. */
  lemma FairStepFails(site: Site, s: System, a: Action)
    requires Healthy(site, s) && |s.pubs| <= ATTEMPTS
    requires Enabled(site, s, a) && Fair(s, a)
    ensures forall p <- Next(site, s, a).pubs :: p.phase.Failed? ==> p.phase.why == Refused
  {
    FairStepCounted(site, s, a);
    if a.StageFiles? {
      var p := s.pubs[a.i];
      assert PublisherOk(site, s, p);
      assert p.batch in Batches(s) && Sourced(site, s, s.branch[p.phase.base]);
      SourcedNeverClashes(site, s.branch[0], Batches(s), s.branch[p.phase.base], p.batch);
    }
  }

  lemma FairStepHealthy(site: Site, s: System, a: Action)
    requires Healthy(site, s) && |s.pubs| <= ATTEMPTS
    requires Enabled(site, s, a) && Fair(s, a)
    ensures Healthy(site, Next(site, s, a))
  {
    var t := Next(site, s, a);
    StepGrows(site, s, a);
    StepKeepsInv(site, s, a);
    FairStepCounted(site, s, a);
    BatchesKept(s, t);
    forall k | 0 <= k < |t.branch| ensures Sourced(site, t, t.branch[k]) {
      FairStepSourced(site, s, a, k);
    }
    FairStepFails(site, s, a);
  }

  /** With at most 20 publishers whose batches agree, and pushes that fail only by
      losing a race, nobody clashes, nobody's push error is final and nobody runs
      out of attempts: only a batch refused before the branch was touched fails. */
  lemma {:induction false} NobodyFails(site: Site, s: System, actions: seq<Action>)
    requires Healthy(site, s) && |s.pubs| <= ATTEMPTS
    requires FairRuns(site, s, actions)
    ensures Runs(site, s, actions) && Healthy(site, After(site, s, actions))
    decreases |actions|
  {
    if actions != [] {
      FairStepHealthy(site, s, actions[0]);
      NobodyFails(site, Next(site, s, actions[0]), actions[1..]);
    }
  }

  lemma InitialHealthy(site: Site, s: System)
    requires Initial(site, s) && Agreeing(site, s)
    ensures Healthy(site, s)
  {
  }
}
