/** Concurrent publication of signed metadata: publishers check public payloads,
    then race to add immutable files to one index branch (`upload`, `push_metadata`).
    Steps of all publishers and of the release store interleave freely. */
module Publication {
  import opened Options
  import opened Narinfo

  type Tree = map<string, string>

  datatype Asset = Asset(uploaded: bool, size: nat, digest: string)
  datatype Release = Release(draft: bool, assets: map<string, Asset>)

  /** A prepared cache directory: metadata files and NAR files by name. */
  datatype Batch = Batch(tag: string, notes: Tree, nars: Tree)

  const NOJEKYLL := ".nojekyll"
  const CACHE_INFO := "nix-cache-info"
  const ATTEMPTS: nat := 20
  const NAR_LIMIT: nat := 0x8000_0000

  predicate SubMap(a: Tree, b: Tree) {
    forall name <- a :: name in b && a[name] == b[name]
  }

  // ----- local checks of `upload` -----

  function Base(site: Site, tag: string): string {
    "https://github.com/" + site.repo + "/releases/download/" + tag + "/"
  }

  predicate NixDigit(c: char) {
    c in "0123456789abcdfghijklmnpqrsvwxyz"
  }

  predicate FileName(name: string) {
    || name == CACHE_INFO
    || (|name| == 40 && IsNarinfo(name) && forall k | 0 <= k < 32 :: NixDigit(name[k]))
  }

  predicate AssetName(name: string) {
    name != "" && forall c <- name :: 'A' <= c <= 'Z' || 'a' <= c <= 'z' || '0' <= c <= '9' || c in "+._-"
  }

  /** The NAR a signed record names in its own batch, when `upload` accepts it. */
  predicate RecordAccepted(site: Site, batch: Batch, name: string)
    requires name in batch.notes
  {
    var fields := Metadata(batch.notes[name]);
    && fields.Some?
    && {"URL", "FileSize", "FileHash"} <= fields.value.Keys
    && Base(site, batch.tag) <= fields.value["URL"]
    && var nar := fields.value["URL"][|Base(site, batch.tag)|..];
    && AssetName(nar)
    && nar in batch.nars
    && site.number(fields.value["FileSize"]) == Some(|batch.nars[nar]|)
    && site.sha256(batch.nars[nar]) == site.base16(fields.value["FileHash"])
    && |batch.nars[nar]| < NAR_LIMIT
  }

  function NarName(site: Site, batch: Batch, name: string): string
    requires name in batch.notes && RecordAccepted(site, batch, name)
  {
    Metadata(batch.notes[name]).value["URL"][|Base(site, batch.tag)|..]
  }

  /** Every local check made before the index branch is cloned. */
  predicate Accepted(site: Site, batch: Batch) {
    && CACHE_INFO in batch.notes
    && (exists name <- batch.notes :: IsNarinfo(name))
    && (forall name <- batch.notes :: FileName(name) && (IsNarinfo(name) ==> RecordAccepted(site, batch, name)))
  }

  predicate Matches(site: Site, asset: Asset, content: string) {
    asset.uploaded && asset.size == |content| && asset.digest == site.sha256(content)
  }

  /** The snapshot of a release's assets holds every NAR the records name. */
  predicate Serves(site: Site, assets: map<string, Asset>, batch: Batch)
    requires Accepted(site, batch)
  {
    forall name | name in batch.notes && IsNarinfo(name) ::
      var nar := NarName(site, batch, name);
      nar in assets && Matches(site, assets[nar], batch.nars[nar])
  }

  // ----- one attempt on a checkout -----

  datatype Staged = Conflict | Staged(tree: Tree, expected: Tree)

  /** A file may be added, or kept when it is the same or differs only in its URL. */
  predicate Keeps(site: Site, tree: Tree, name: string, local: string) {
    name in tree ==> tree[name] == local || Equivalent(site, name, tree[name], local)
  }

  predicate AllKept(site: Site, tree: Tree, notes: Tree) {
    forall name <- notes :: Keeps(site, tree, name, notes[name])
  }

  /** The bytes a publisher answers for: the first ones published under each name. */
  function Retained(tree: Tree, notes: Tree): Tree {
    map name | name in notes :: if name in tree then tree[name] else notes[name]
  }

  /** The commit one attempt makes on a tree. */
  function Stage(site: Site, tree: Tree, notes: Tree): Staged {
    if AllKept(site, tree, notes) && (NOJEKYLL in tree ==> tree[NOJEKYLL] == "")
    then Staged(notes + map[NOJEKYLL := ""] + tree, Retained(tree, notes))
    else Conflict
  }

  datatype File = File(name: string, bytes: string)

  /** The batch that a list of prepared files amounts to. */
  function AsTree(paths: seq<File>): Tree {
    if paths == [] then map[]
    else
      var last := paths[|paths| - 1];
      AsTree(paths[..|paths| - 1])[last.name := last.bytes]
  }

  /** Files of one directory: no name twice. */
  predicate DistinctNames(paths: seq<File>) {
    paths == [] || (paths[|paths| - 1].name !in AsTree(paths[..|paths| - 1]) && DistinctNames(paths[..|paths| - 1]))
  }

  lemma {:induction false} DistinctPrefix(paths: seq<File>, i: nat)
    requires DistinctNames(paths) && i <= |paths|
    ensures DistinctNames(paths[..i])
    decreases |paths|
  {
    if i == |paths| {
      assert paths[..i] == paths;
    } else {
      DistinctPrefix(paths[..|paths| - 1], i);
      assert paths[..|paths| - 1][..i] == paths[..i];
    }
  }

  /** Adding one more file extends what was written and what is retained. */
  lemma StageOneMore(site: Site, tree: Tree, notes: Tree, name: string, local: string)
    requires name !in notes
    ensures Retained(tree, notes[name := local])
         == Retained(tree, notes)[name := if name in tree then tree[name] else local]
    ensures notes[name := local] + tree
         == if name in notes + tree then notes + tree else (notes + tree)[name := local]
  {
  }

  lemma KeepOneMore(site: Site, tree: Tree, notes: Tree, name: string, local: string)
    requires name !in notes
    ensures AllKept(site, tree, notes[name := local])
        <==> AllKept(site, tree, notes) && Keeps(site, notes + tree, name, local)
  {
    var more := notes[name := local];
    if AllKept(site, tree, more) {
      assert Keeps(site, tree, name, more[name]);
      forall n | n in notes ensures Keeps(site, tree, n, notes[n]) {
        assert Keeps(site, tree, n, more[n]);
      }
    }
  }

  lemma {:induction false} PrefixKept(site: Site, tree: Tree, paths: seq<File>, i: nat)
    requires DistinctNames(paths) && i <= |paths|
    requires AllKept(site, tree, AsTree(paths))
    ensures AllKept(site, tree, AsTree(paths[..i]))
    decreases |paths|
  {
    if i == |paths| {
      assert paths[..i] == paths;
    } else {
      var last := paths[|paths| - 1];
      KeepOneMore(site, tree, AsTree(paths[..|paths| - 1]), last.name, last.bytes);
      PrefixKept(site, tree, paths[..|paths| - 1], i);
      assert paths[..|paths| - 1][..i] == paths[..i];
    }
  }

  lemma MarkerAdded(tree: Tree, notes: Tree)
    requires NOJEKYLL !in notes
    ensures NOJEKYLL in notes + tree <==> NOJEKYLL in tree
    ensures notes + map[NOJEKYLL := ""] + tree
         == if NOJEKYLL in notes + tree then notes + tree else (notes + tree)[NOJEKYLL := ""]
  {
  }

  /** The disposable clone that `push_metadata` writes into, one path at a time. */
  class Checkout {
    var files: Tree

    constructor (tree: Tree)
      ensures files == tree
    {
      files := tree;
    }

    /** One path: keep the first published file, or add this one. */
    method AddPath(site: Site, name: string, local: string) returns (data: Option<string>)
      modifies this
      ensures data.Some? <==> Keeps(site, old(files), name, local)
      ensures data.Some? ==> name in files && data.value == files[name]
      ensures files == if name in old(files) then old(files) else old(files)[name := local]
    {
      if name in files {
        if files[name] != local && !Equivalent(site, name, files[name], local) {
          return None;
        }
      } else {
        files := files[name := local];
      }
      return Some(files[name]);
    }

    /** The loop over the paths: stops at the first file that would be replaced. */
    method AddPaths(site: Site, paths: seq<File>) returns (expected: Option<Tree>)
      requires DistinctNames(paths)
      modifies this
      ensures expected == if AllKept(site, old(files), AsTree(paths))
                          then Some(Retained(old(files), AsTree(paths))) else None
      ensures expected.Some? ==> files == AsTree(paths) + old(files)
    {
      ghost var tree := files;
      var kept: Tree := map[];
      for i := 0 to |paths|
        invariant files == AsTree(paths[..i]) + tree
        invariant kept == Retained(tree, AsTree(paths[..i]))
        invariant AllKept(site, tree, AsTree(paths[..i]))
      {
        DistinctPrefix(paths, i + 1);
        assert paths[..i + 1][..i] == paths[..i];
        StageOneMore(site, tree, AsTree(paths[..i]), paths[i].name, paths[i].bytes);
        KeepOneMore(site, tree, AsTree(paths[..i]), paths[i].name, paths[i].bytes);
        var data := AddPath(site, paths[i].name, paths[i].bytes);
        if data == None {
          if AllKept(site, tree, AsTree(paths)) {
            PrefixKept(site, tree, paths, i + 1);
          }
          return None;
        }
        kept := kept[paths[i].name := data.value];
      }
      assert paths[..|paths|] == paths;
      return Some(kept);
    }

    method AddFiles(site: Site, paths: seq<File>) returns (expected: Option<Tree>)
      requires DistinctNames(paths) && NOJEKYLL !in AsTree(paths)
      modifies this
      ensures match Stage(site, old(files), AsTree(paths))
              case Conflict => expected == None
              case Staged(tree, bytes) => files == tree && expected == Some(bytes)
    {
      MarkerAdded(files, AsTree(paths));
      expected := AddPaths(site, paths);
      if expected.Some? {
        if NOJEKYLL in files {
          if files[NOJEKYLL] != "" {
            return None;
          }
        } else {
          files := files[NOJEKYLL := ""];
        }
      }
    }
  }

  // ----- the machine -----

  datatype Why = Refused | Clash | PushError | Exhausted

  datatype Phase =
    | Idle
    | Open                                                       // saw its release public
    | Verified                                                   // saw every NAR match
    | Staging(attempt: nat, base: nat, start: nat)
    | Pushing(attempt: nat, base: nat, start: nat, tree: Tree, expected: Tree)
    | Rejected(attempt: nat, base: nat, start: nat)              // the push command failed
    | Returned(bytes: Tree)
    | Failed(why: Why)

  datatype Publisher = Publisher(batch: Batch, phase: Phase)

  /** `branch` lists every tree the index branch has had; `owners` who landed each but the first. */
  datatype System = System(
    releases: map<string, Release>,
    branch: seq<Tree>,
    owners: seq<nat>,
    pubs: seq<Publisher>)

  datatype Action =
    | CreateDraft(tag: string)
    | Insert(tag: string, name: string, asset: Asset)
    | MakePublic(tag: string)
    | Begin(i: nat)
    | ReadAssets(i: nat, snapshot: map<string, Asset>)
    | Clone(i: nat)
    | StageFiles(i: nat)
    | PushLands(i: nat, replied: bool)
    | PushFails(i: nat)
    | Fetch(i: nat)

  predicate Enabled(site: Site, s: System, a: Action) {
    match a
    case CreateDraft(tag) => tag !in s.releases
    case Insert(tag, name, _) => tag in s.releases && name !in s.releases[tag].assets
    case MakePublic(tag) => tag in s.releases
    case Begin(i) => i < |s.pubs| && s.pubs[i].phase.Idle?
    case ReadAssets(i, snapshot) =>
      && i < |s.pubs| && s.pubs[i].phase.Open?
      && s.pubs[i].batch.tag in s.releases
      && AssetsKept(snapshot, s.releases[s.pubs[i].batch.tag].assets)
    case Clone(i) => i < |s.pubs| && s.pubs[i].phase.Verified? && s.branch != []
    case StageFiles(i) => i < |s.pubs| && s.pubs[i].phase.Staging? && s.pubs[i].phase.base < |s.branch|
    case PushLands(i, _) => i < |s.pubs| && s.pubs[i].phase.Pushing? && s.pubs[i].phase.base + 1 == |s.branch|
    case PushFails(i) => i < |s.pubs| && s.pubs[i].phase.Pushing?
    case Fetch(i) => i < |s.pubs| && s.pubs[i].phase.Rejected? && s.branch != []
  }

  function Next(site: Site, s: System, a: Action): System
    requires Enabled(site, s, a)
  {
    match a
    case CreateDraft(tag) => s.(releases := s.releases[tag := Release(true, map[])])
    case Insert(tag, name, asset) =>
      var r := s.releases[tag];
      s.(releases := s.releases[tag := r.(assets := r.assets[name := asset])])
    case MakePublic(tag) => s.(releases := s.releases[tag := s.releases[tag].(draft := false)])
    case Begin(i) => To(s, i, Begun(site, s.releases, s.pubs[i].batch))
    case ReadAssets(i, snapshot) => To(s, i, Checked(site, snapshot, s.pubs[i].batch))
    case Clone(i) => To(s, i, Staging(0, |s.branch| - 1, |s.branch| - 1))
    case StageFiles(i) => To(s, i, AfterStaging(site, s.branch, s.pubs[i].batch.notes, s.pubs[i].phase))
    case PushLands(i, replied) =>
      var at := s.pubs[i].phase;
      To(s.(branch := s.branch + [at.tree], owners := s.owners + [i]), i,
         if replied then Returned(at.expected) else Rejected(at.attempt, at.base, at.start))
    case PushFails(i) =>
      var at := s.pubs[i].phase;
      To(s, i, Rejected(at.attempt, at.base, at.start))
    case Fetch(i) => To(s, i, AfterFetch(s.branch, s.pubs[i].phase))
  }

  /** `upload` starts on the metadata only when the release is public. */
  function Begun(site: Site, releases: map<string, Release>, batch: Batch): Phase {
    if Accepted(site, batch) && batch.tag in releases && !releases[batch.tag].draft then Open else Failed(Refused)
  }

  /** It goes on only when the assets it read match every NAR. */
  function Checked(site: Site, snapshot: map<string, Asset>, batch: Batch): Phase {
    if Accepted(site, batch) && Serves(site, snapshot, batch) then Verified else Failed(Refused)
  }

  /** One attempt: refused, nothing to push, or a commit to push. */
  function AfterStaging(site: Site, branch: seq<Tree>, notes: Tree, at: Phase): Phase
    requires at.Staging? && at.base < |branch|
  {
    match Stage(site, branch[at.base], notes)
    case Conflict => Failed(Clash)
    case Staged(tree, expected) =>
      if tree == branch[at.base] then Returned(expected)
      else Pushing(at.attempt, at.base, at.start, tree, expected)
  }

  /** A failed push is final when the branch did not move; otherwise the next attempt, if any. */
  function AfterFetch(branch: seq<Tree>, at: Phase): Phase
    requires at.Rejected? && branch != []
  {
    if at.base == |branch| - 1 then Failed(PushError)
    else if at.attempt + 1 < ATTEMPTS then Staging(at.attempt + 1, |branch| - 1, at.start)
    else Failed(Exhausted)
  }

  function To(s: System, i: nat, phase: Phase): System
    requires i < |s.pubs|
  {
    s.(pubs := s.pubs[i := s.pubs[i].(phase := phase)])
  }

  predicate AssetsKept(before: map<string, Asset>, after: map<string, Asset>) {
    forall name <- before :: name in after && before[name] == after[name]
  }

  predicate ReleasesKept(before: map<string, Release>, after: map<string, Release>) {
    forall tag <- before ::
      && tag in after
      && (after[tag].draft ==> before[tag].draft)
      && AssetsKept(before[tag].assets, after[tag].assets)
  }

  // ----- what every step keeps -----

  /** The text names an asset of a public release with its recorded size and hash. */
  predicate BackedBy(site: Site, releases: map<string, Release>, text: string, tag: string, nar: string) {
    var fields := Metadata(text);
    && fields.Some?
    && {"URL", "FileSize", "FileHash"} <= fields.value.Keys
    && fields.value["URL"] == Base(site, tag) + nar
    && tag in releases && !releases[tag].draft
    && nar in releases[tag].assets
    && var asset := releases[tag].assets[nar];
    && asset.uploaded
    && site.number(fields.value["FileSize"]) == Some(asset.size)
    && asset.digest == site.base16(fields.value["FileHash"])
  }

  ghost predicate Backed(site: Site, releases: map<string, Release>, text: string) {
    exists tag, nar :: BackedBy(site, releases, text, tag, nar)
  }

  ghost predicate TreeBacked(site: Site, releases: map<string, Release>, tree: Tree) {
    forall name <- tree :: IsNarinfo(name) ==> Backed(site, releases, tree[name])
  }

  /** The publisher's own NARs are public in its release. */
  predicate Ready(site: Site, releases: map<string, Release>, batch: Batch) {
    && Accepted(site, batch)
    && batch.tag in releases && !releases[batch.tag].draft
    && Serves(site, releases[batch.tag].assets, batch)
  }

  /** What a publisher may answer for: its own bytes, or an equivalent retained file. */
  predicate Answers(site: Site, bytes: Tree, notes: Tree) {
    && bytes.Keys == notes.Keys
    && forall name <- notes :: bytes[name] == notes[name] || Equivalent(site, name, bytes[name], notes[name])
  }

  /** What holds of a publisher in each phase, given the releases and the branch. */
  predicate PhaseOk(site: Site, releases: map<string, Release>, branch: seq<Tree>, batch: Batch, at: Phase) {
    match at
    case Idle => true
    case Failed(_) => true
    case Open => Accepted(site, batch) && batch.tag in releases && !releases[batch.tag].draft
    case Verified => Ready(site, releases, batch)
    case Staging(_, base, _) => Ready(site, releases, batch) && base < |branch|
    case Rejected(_, base, _) => Ready(site, releases, batch) && base < |branch|
    case Pushing(_, base, _, tree, expected) =>
      && Ready(site, releases, batch) && base < |branch|
      && Stage(site, branch[base], batch.notes) == Staged(tree, expected)
    case Returned(bytes) =>
      && Ready(site, releases, batch)
      && Answers(site, bytes, batch.notes)
      && branch != [] && SubMap(bytes, branch[|branch| - 1])
  }

  predicate PublisherOk(site: Site, s: System, p: Publisher) {
    PhaseOk(site, s.releases, s.branch, p.batch, p.phase)
  }

  predicate Growing(branch: seq<Tree>) {
    forall k, m | 0 <= k <= m < |branch| :: SubMap(branch[k], branch[m])
  }

  ghost predicate Inv(site: Site, s: System) {
    && s.branch != []
    && Growing(s.branch)
    && (forall k | 0 <= k < |s.branch| :: TreeBacked(site, s.releases, s.branch[k]))
    && (forall p <- s.pubs :: PublisherOk(site, s, p))
  }

  /** Where every run starts: one backed tree and publishers that did nothing yet. */
  ghost predicate Initial(site: Site, s: System) {
    && |s.branch| == 1 && s.owners == []
    && TreeBacked(site, s.releases, s.branch[0])
    && forall p <- s.pubs :: p.phase.Idle?
  }

  lemma BackedKept(site: Site, before: map<string, Release>, after: map<string, Release>, tree: Tree)
    requires ReleasesKept(before, after) && TreeBacked(site, before, tree)
    ensures TreeBacked(site, after, tree)
  {
    forall name | name in tree && IsNarinfo(name) ensures Backed(site, after, tree[name]) {
      var tag, nar :| BackedBy(site, before, tree[name], tag, nar);
      assert BackedBy(site, after, tree[name], tag, nar);
    }
  }

  lemma ReadyRecordsBacked(site: Site, releases: map<string, Release>, batch: Batch)
    requires Ready(site, releases, batch)
    ensures TreeBacked(site, releases, batch.notes)
  {
    forall name | name in batch.notes && IsNarinfo(name) ensures Backed(site, releases, batch.notes[name]) {
      var base := Base(site, batch.tag);
      var url := Metadata(batch.notes[name]).value["URL"];
      assert url == base + url[|base|..];
      assert BackedBy(site, releases, batch.notes[name], batch.tag, NarName(site, batch, name));
    }
  }

  lemma AcceptedNames(site: Site, batch: Batch)
    requires Accepted(site, batch)
    ensures NOJEKYLL !in batch.notes
  {
  }

  lemma StageFacts(site: Site, tree: Tree, notes: Tree)
    requires NOJEKYLL !in notes
    requires Stage(site, tree, notes).Staged?
    ensures var r := Stage(site, tree, notes);
            SubMap(tree, r.tree) && SubMap(r.expected, r.tree) && Answers(site, r.expected, notes)
  {
  }

  lemma LandingGrows(branch: seq<Tree>, tree: Tree)
    requires branch != [] && Growing(branch) && SubMap(branch[|branch| - 1], tree)
    ensures Growing(branch + [tree])
  {
  }

  predicate SameBatches(s: System, t: System) {
    |t.pubs| == |s.pubs| && forall i | 0 <= i < |s.pubs| :: t.pubs[i].batch == s.pubs[i].batch
  }

  lemma StepKeepsReleases(site: Site, s: System, a: Action)
    requires Enabled(site, s, a)
    ensures ReleasesKept(s.releases, Next(site, s, a).releases)
  {
  }

  lemma StepKeepsBatches(site: Site, s: System, a: Action)
    requires Enabled(site, s, a)
    ensures SameBatches(s, Next(site, s, a))
  {
  }

  lemma StepGrowsBranch(site: Site, s: System, a: Action)
    requires Inv(site, s) && Enabled(site, s, a)
    ensures s.branch <= Next(site, s, a).branch && Growing(Next(site, s, a).branch)
  {
    if a.PushLands? {
      var p := s.pubs[a.i];
      assert PublisherOk(site, s, p);
      AcceptedNames(site, p.batch);
      StageFacts(site, s.branch[|s.branch| - 1], p.batch.notes);
      LandingGrows(s.branch, p.phase.tree);
    }
  }

  /** Releases only gain assets and only become public; the branch only gains supersets. */
  lemma StepGrows(site: Site, s: System, a: Action)
    requires Inv(site, s) && Enabled(site, s, a)
    ensures var t := Next(site, s, a);
            && ReleasesKept(s.releases, t.releases)
            && s.branch <= t.branch && Growing(t.branch)
            && SameBatches(s, t)
  {
    StepKeepsReleases(site, s, a);
    StepKeepsBatches(site, s, a);
    StepGrowsBranch(site, s, a);
  }

  lemma ReadyKept(site: Site, before: map<string, Release>, after: map<string, Release>, batch: Batch)
    requires ReleasesKept(before, after) && Ready(site, before, batch)
    ensures Ready(site, after, batch)
  {
  }

  /** The commit a publisher pushes holds only backed records. */
  lemma CommitBacked(site: Site, releases: map<string, Release>, branch: seq<Tree>, batch: Batch, at: Phase)
    requires PhaseOk(site, releases, branch, batch, at) && at.Pushing?
    requires TreeBacked(site, releases, branch[at.base])
    ensures TreeBacked(site, releases, at.tree)
  {
    ReadyRecordsBacked(site, releases, batch);
  }

  lemma TreesStayBacked(site: Site, s: System, a: Action)
    requires Inv(site, s) && Enabled(site, s, a)
    ensures var t := Next(site, s, a);
            forall k | 0 <= k < |t.branch| :: TreeBacked(site, t.releases, t.branch[k])
  {
    var t := Next(site, s, a);
    StepKeepsReleases(site, s, a);
    forall k | 0 <= k < |s.branch| ensures TreeBacked(site, t.releases, s.branch[k]) {
      BackedKept(site, s.releases, t.releases, s.branch[k]);
    }
    if a.PushLands? {
      var p := s.pubs[a.i];
      assert PublisherOk(site, s, p);
      CommitBacked(site, s.releases, s.branch, p.batch, p.phase);
    }
  }

  /** A publisher that did not move stays in order while everything else grows. */
  lemma BystanderKept(site: Site, s: System, t: System, p: Publisher)
    requires s.branch != [] && PublisherOk(site, s, p)
    requires ReleasesKept(s.releases, t.releases) && s.branch <= t.branch && Growing(t.branch)
    ensures PublisherOk(site, t, p)
  {
    if p.phase.Returned? {
      var last := |s.branch| - 1;
      assert SubMap(t.branch[last], t.branch[|t.branch| - 1]);
    }
    if Ready(site, s.releases, p.batch) {
      ReadyKept(site, s.releases, t.releases, p.batch);
    }
  }

  lemma CheckedOk(site: Site, releases: map<string, Release>, branch: seq<Tree>, batch: Batch,
                  snapshot: map<string, Asset>)
    requires PhaseOk(site, releases, branch, batch, Open) && AssetsKept(snapshot, releases[batch.tag].assets)
    ensures PhaseOk(site, releases, branch, batch, Checked(site, snapshot, batch))
  {
  }

  /** Staging leaves a commit above the clone, or the bytes of a tree that already has them. */
  lemma StagedOk(site: Site, releases: map<string, Release>, branch: seq<Tree>, batch: Batch, at: Phase)
    requires PhaseOk(site, releases, branch, batch, at) && at.Staging? && Growing(branch)
    ensures PhaseOk(site, releases, branch, batch, AfterStaging(site, branch, batch.notes, at))
  {
    var made := Stage(site, branch[at.base], batch.notes);
    if made.Staged? {
      AcceptedNames(site, batch);
      StageFacts(site, branch[at.base], batch.notes);
      assert SubMap(branch[at.base], branch[|branch| - 1]);
    }
  }

  /** A landed push leaves the publisher's bytes on the branch, with its reply or without. */
  lemma LandedOk(site: Site, releases: map<string, Release>, branch: seq<Tree>, batch: Batch, at: Phase)
    requires PhaseOk(site, releases, branch, batch, at) && at.Pushing?
    ensures PhaseOk(site, releases, branch + [at.tree], batch, Returned(at.expected))
    ensures PhaseOk(site, releases, branch + [at.tree], batch, Rejected(at.attempt, at.base, at.start))
  {
    AcceptedNames(site, batch);
    StageFacts(site, branch[at.base], batch.notes);
  }

  lemma MoverOk(site: Site, s: System, a: Action, i: nat)
    requires Inv(site, s) && Enabled(site, s, a)
    requires i < |s.pubs| && Next(site, s, a).pubs[i] != s.pubs[i]
    ensures PublisherOk(site, Next(site, s, a), Next(site, s, a).pubs[i])
  {
    var p := s.pubs[i];
    assert PublisherOk(site, s, p);
    match a
    case StageFiles(_) => StagedOk(site, s.releases, s.branch, p.batch, p.phase);
    case PushLands(_, _) => LandedOk(site, s.releases, s.branch, p.batch, p.phase);
    case ReadAssets(_, snapshot) => CheckedOk(site, s.releases, s.branch, p.batch, snapshot);
    case _ =>
  }

  lemma StepKeepsInv(site: Site, s: System, a: Action)
    requires Inv(site, s) && Enabled(site, s, a)
    ensures Inv(site, Next(site, s, a))
  {
    var t := Next(site, s, a);
    StepGrows(site, s, a);
    TreesStayBacked(site, s, a);
    forall i | 0 <= i < |t.pubs| ensures PublisherOk(site, t, t.pubs[i]) {
      if t.pubs[i] == s.pubs[i] {
        BystanderKept(site, s, t, s.pubs[i]);
      } else {
        MoverOk(site, s, a, i);
      }
    }
  }
}
