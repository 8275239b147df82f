/** `assets` and `upload_files` against a release that rivals fill at the same time.
    Between any two requests of this publisher the rivals may insert any assets,
    publish the draft or make the release immutable; requests and replies may fail. */
module ReleaseUpload {
  import opened Options
  import opened Narinfo
  import opened ReleaseListing

  datatype File = File(name: string, content: string)
  datatype Record = Record(id: nat, draft: bool, immutable: bool)

  datatype Error =
    | Unavailable      // a read failed
    | DuplicateName
    | LostIds
    | Differs
    | TooMany
    | Changed
    | Immutable
    | PostFailed
    | DigestMismatch
    | Unverified

  datatype Result<+T> = Ok(value: T) | Err(error: Error)

  const SCANS: nat := 20

  // ----- what counts as stored -----

  predicate Matches(site: Site, a: Asset, f: File) {
    a.uploaded && |a.content| == |f.content| && site.sha256(a.content) == site.sha256(f.content)
  }

  predicate EquivalentAsset(site: Site, a: Asset, f: File) {
    a.uploaded && Equivalent(site, f.name, a.content, f.content)
  }

  predicate Suits(site: Site, a: Asset, f: File) {
    a.name == f.name && (Matches(site, a, f) || EquivalentAsset(site, a, f))
  }

  /** The file is stored, or an equivalent first file is retained. */
  predicate Held(site: Site, listing: seq<Asset>, f: File) {
    exists a <- listing :: Suits(site, a, f)
  }

  /** Something else already has the name. */
  predicate Collides(site: Site, listing: seq<Asset>, f: File) {
    exists a <- listing :: a.name == f.name && !Suits(site, a, f)
  }

  lemma HeldKept(site: Site, before: seq<Asset>, after: seq<Asset>, f: File)
    requires Grew(before, after)
    ensures Held(site, before, f) ==> Held(site, after, f)
    ensures Collides(site, before, f) ==> Collides(site, after, f)
  {
  }

  /** A name holds one asset, so a collision is never also a match. */
  lemma HeldNorCollides(site: Site, listing: seq<Asset>, f: File)
    requires Sorted(listing) && f.name in Names(listing)
    ensures Held(site, listing, f) <==> !Collides(site, listing, f)
  {
    var a :| a in listing && a.name == f.name;
    forall b | b in listing && b.name == f.name ensures b == a {
      SortedUnique(listing, a, b);
    }
  }

  class Release {
    const id: nat
    var draft: bool
    var immutable: bool
    var listing: seq<Asset>
    /** The names this publisher sent a POST for. */
    var posted: seq<string>

    predicate Valid()
      reads this
    {
      Sorted(listing) && |listing| <= LIMIT
    }

    constructor (id: nat, draft: bool, listing: seq<Asset>)
      requires Sorted(listing) && |listing| <= LIMIT
      ensures Valid() && this.listing == listing && posted == []
    {
      this.id, this.draft, this.immutable := id, draft, false;
      this.listing, this.posted := listing, [];
    }

    /** Anything the rivals may have done by the time of the next request. */
    method Rivals()
      requires Valid()
      modifies this`draft, this`immutable, this`listing
      ensures Valid() && Grew(old(listing), listing)
      ensures draft ==> old(draft)
    {
      var next: seq<Asset> := *;
      if Sorted(next) && |next| <= LIMIT && Grew(listing, next) {
        listing := next;
      }
      var publish: bool := *;
      draft := draft && !publish;
      var close: bool := *;
      immutable := immutable || close;
    }

    method Lookup() returns (r: Option<Record>)
      requires Valid()
      modifies this`draft, this`immutable, this`listing
      ensures Valid() && Grew(old(listing), listing)
      ensures r.Some? ==> r.value == Record(id, draft, immutable)
    {
      Rivals();
      var answered: bool := *;
      return if answered then Some(Record(id, draft, immutable)) else None;
    }

    /** Create-if-absent. The request may fail before or after it took effect, and an
        interrupted upload may leave an asset that never becomes usable. */
    method Post(f: File) returns (reply: Option<Asset>)
      requires Valid()
      modifies this
      ensures Valid() && Grew(old(listing), listing)
      ensures posted == old(posted) + [f.name]
      ensures reply.Some? ==> reply.value in listing && reply.value.name == f.name
      ensures reply.Some? ==> reply.value.uploaded && reply.value.content == f.content
    {
      posted := posted + [f.name];
      Rivals();
      var arrives: bool := *;
      if !arrives || immutable || |listing| >= LIMIT || f.name in Names(listing) {
        return None;
      }
      var number: nat := *;
      var interrupted: bool := *;
      var asset := Asset(number, f.name, !interrupted, if interrupted then "" else f.content);
      InsertKeepsSorted(listing, asset);
      listing := InsertSorted(listing, asset);
      var answered: bool := *;
      return if answered && !interrupted then Some(asset) else None;
    }

    /** Reads one page into the result, unless one name shows two IDs. */
    method ReadBatch(batch: seq<Asset>, found: map<string, Asset>) returns (r: Result<map<string, Asset>>)
      requires Valid() && Collected(found, listing) && Grew(batch, listing)
      ensures r.Ok? && Collected(r.value, listing)
      ensures forall name <- found :: name in r.value && r.value[name] == found[name]
      ensures forall a <- batch :: a.name in r.value && r.value[a.name] == a
    {
      var result := found;
      for k := 0 to |batch|
        invariant Collected(result, listing)
        invariant forall name <- found :: name in result && result[name] == found[name]
        invariant forall i | 0 <= i < k :: batch[i].name in result && result[batch[i].name] == batch[i]
      {
        var asset := batch[k];
        assert asset in listing;
        forall name | name in result && name == asset.name ensures result[name] == asset {
          SortedUnique(listing, result[name], asset);
        }
        if asset.name in result && result[asset.name].id != asset.id {
          return Err(DuplicateName);
        }
        result := result[asset.name := asset];
      }
      return Ok(result);
    }

    /** One pass over the pages while they shift. */
    method Scan() returns (r: Result<map<string, Asset>>)
      requires Valid()
      modifies this`draft, this`immutable, this`listing
      ensures Valid() && Grew(old(listing), listing)
      ensures r.Ok? ==> Between(old(listing), r.value, listing)
      ensures r.Err? ==> r.error == Unavailable
    {
      ghost var start := listing;
      var result: map<string, Asset> := map[];
      var page := 1;
      while true
        invariant Valid() && Grew(start, listing)
        invariant page >= 1 && PAGE * (page - 1) <= |listing|
        invariant Collected(result, listing)
        invariant ReadUpTo(start, listing, PAGE * (page - 1), result)
        decreases LIMIT + PAGE - PAGE * page
      {
        ghost var before := listing;
        Rivals();
        GrowthHidesNothing(start, before, listing, PAGE * (page - 1), result);
        var answered: bool := *;
        if !answered {
          return Err(Unavailable);
        }
        var batch := Page(listing, page);
        ghost var seen := result;
        var read := ReadBatch(batch, result);
        if read.Err? {
          return read;
        }
        result := read.value;
        forall i | 0 <= i < |listing| && i < PAGE * page && listing[i] in start
          ensures listing[i].name in result && result[listing[i].name] == listing[i]
        {
          if i >= PAGE * (page - 1) {
            assert listing[i] == batch[i - PAGE * (page - 1)];
          } else {
            assert listing[i].name in seen;
          }
        }
        if |batch| < PAGE {
          break;
        }
        page := page + 1;
      }
      return Ok(result);
    }

    /** The listing that callers act on: the newer of two scans that lost no ID. While
        assets are only inserted that is the second scan, and it never fails for its content. */
    method Assets() returns (r: Result<map<string, Asset>>, ghost scans: nat)
      requires Valid()
      modifies this`draft, this`immutable, this`listing
      ensures Valid() && Grew(old(listing), listing)
      ensures r.Ok? ==> scans == 2 && Between(old(listing), r.value, listing)
      ensures r.Err? ==> r.error == Unavailable
    {
      var scan := 0;
      var previous: Option<set<nat>> := None;
      ghost var first: map<string, Asset> := map[];
      while scan < SCANS
        invariant Valid() && Grew(old(listing), listing)
        invariant scan <= 1
        invariant scan == 1 ==> previous == Some(Ids(first)) && Collected(first, listing)
        invariant scan == 0 ==> previous == None
        decreases SCANS - scan
      {
        ghost var before := listing;
        var found := Scan();
        if found.Err? {
          return found, scan + 1;
        }
        if previous.Some? {
          BetweenIds(before, first, found.value, listing);
          if previous.value <= Ids(found.value) {
            return found, scan + 1;
          }
        }
        first := found.value;
        previous := Some(Ids(found.value));
        scan := scan + 1;
      }
      return Err(LostIds), SCANS;
    }

    // ----- upload_files -----

    /** `equivalent_metadata`: downloads the asset; None when that read fails. */
    method CheckEquivalent(site: Site, a: Asset, f: File) returns (same: Option<bool>)
      requires Valid()
      modifies this`draft, this`immutable, this`listing
      ensures Valid() && Grew(old(listing), listing)
      ensures same.Some? ==> same.value == EquivalentAsset(site, a, f)
    {
      Rivals();
      if !IsNarinfo(f.name) || !a.uploaded || !(0 < |a.content| <= SIZE_LIMIT) {
        return Some(false);
      }
      var answered: bool := *;
      return if answered then Some(Equivalent(site, f.name, a.content, f.content)) else None;
    }

    /** The collision check before the first write: which first files are retained. */
    method CheckCollisions(site: Site, files: seq<File>, existing: map<string, Asset>)
      returns (r: Result<map<string, Asset>>)
      requires Valid() && Collected(existing, listing)
      modifies this`draft, this`immutable, this`listing
      ensures Valid() && Grew(old(listing), listing)
      ensures r.Ok? ==> Collected(r.value, listing)
      ensures r.Ok? ==> forall f <- files :: f.name in existing ==> Settled(site, listing, r.value, f)
      ensures r.Err? ==> r.error in {Unavailable, Differs}
    {
      var retained: map<string, Asset> := map[];
      for k := 0 to |files|
        invariant Valid() && Grew(old(listing), listing)
        invariant Collected(retained, listing)
        invariant forall i | 0 <= i < k && files[i].name in existing :: Settled(site, listing, retained, files[i])
      {
        var f := files[k];
        if f.name in existing && !Matches(site, existing[f.name], f) {
          ghost var before := listing;
          var same := CheckEquivalent(site, existing[f.name], f);
          SettledKept(site, before, listing, retained, retained, files[..k]);
          if same == None {
            return Err(Unavailable);
          }
          if !same.value {
            return Err(Differs);
          }
          SettledKept(site, listing, listing, retained, retained[f.name := existing[f.name]], files[..k]);
          retained := retained[f.name := existing[f.name]];
        }
      }
      return Ok(retained);
    }

    /** After a failed POST: accept what is stored under the name only when it suits. */
    method Reconcile(site: Site, f: File, selected: Record) returns (kept: Option<(Asset, bool)>)
      requires Valid()
      modifies this`draft, this`immutable, this`listing
      ensures Valid() && Grew(old(listing), listing)
      ensures kept.Some? ==> kept.value.0 in listing && Suits(site, kept.value.0, f)
      ensures kept.Some? && !kept.value.1 ==> Matches(site, kept.value.0, f)
    {
      var current := Lookup();
      if current == None || current.value.id != selected.id || current.value.draft != selected.draft
         || current.value.immutable {
        return None;
      }
      var existing, _ := Assets();
      if existing.Err? || f.name !in existing.value {
        return None;
      }
      var asset := existing.value[f.name];
      if Matches(site, asset, f) {
        return Some((asset, false));
      }
      var same := CheckEquivalent(site, asset, f);
      return if same == Some(true) then Some((asset, true)) else None;
    }

    /** One file that the snapshot lacked: at most one POST, never retried. Answers with
        the asset to retain, or None when the file's own bytes are stored. */
    method Send(site: Site, f: File, selected: Record) returns (r: Result<Option<Asset>>)
      requires Valid()
      modifies this
      ensures Valid() && Grew(old(listing), listing)
      ensures posted == old(posted) || posted == old(posted) + [f.name]
      ensures r.Ok? && r.value.None? ==> exists a <- listing :: a.name == f.name && Matches(site, a, f)
      ensures r.Ok? && r.value.Some? ==> r.value.value in listing && Suits(site, r.value.value, f)
      ensures r.Err? ==> r.error in {Unavailable, Changed, Immutable, PostFailed}
    {
      var current := Lookup();
      if current == None {
        return Err(Unavailable);
      }
      if current.value.id != selected.id || current.value.draft != selected.draft {
        return Err(Changed);
      }
      if current.value.immutable {
        return Err(Immutable);
      }
      var reply := Post(f);
      if reply == None {
        var kept := Reconcile(site, f, selected);
        return match kept
               case None => Err(PostFailed)
               case Some((asset, retain)) => Ok(if retain then Some(asset) else None);
      }
      if !Matches(site, reply.value, f) {
        return Err(DigestMismatch);
      }
      return Ok(None);
    }

    /** The listing after the last POST shows every file as it was left. */
    method Verify(site: Site, files: seq<File>, selected: Record, retained: map<string, Asset>)
      returns (r: Result<()>)
      requires Valid() && selected.id == id && Collected(retained, listing)
      requires forall f <- files :: Settled(site, listing, retained, f)
      modifies this`draft, this`immutable, this`listing
      ensures Valid() && Grew(old(listing), listing)
      ensures r.Err? ==> r.error == Unavailable
    {
      var current := Lookup();
      if current == None {
        return Err(Unavailable);
      }
      if current.value.id != selected.id {
        return Err(Changed);
      }
      ghost var before := listing;
      SettledKept(site, old(listing), before, retained, retained, files);
      var stored, _ := Assets();
      if stored.Err? {
        return Err(stored.error);
      }
      for k := 0 to |files|
      {
        var f := files[k];
        var valid := if f.name in retained
                     then f.name in stored.value && stored.value[f.name] == retained[f.name]
                     else f.name in stored.value && Matches(site, stored.value[f.name], f);
        assert valid by {
          assert f in files;
          if f.name in retained {
            assert retained[f.name] in before;
          } else {
            var a :| a in before && a.name == f.name && Matches(site, a, f);
            assert stored.value[a.name] == a;
          }
        }
        if !valid {
          return Err(Unverified);
        }
      }
      return Ok(());
    }

    /** The POST loop: files the snapshot already had are left alone. */
    method SendMissing(site: Site, files: seq<File>, names: set<string>, selected: Record,
                       retained: map<string, Asset>)
      returns (r: Result<map<string, Asset>>)
      requires Valid() && Collected(retained, listing)
      requires SettledUpTo(site, listing, retained, files, names, 0)
      modifies this
      ensures Valid() && Grew(old(listing), listing)
      ensures r.Ok? ==> Collected(r.value, listing) && AllSettled(site, listing, r.value, files)
      ensures Sent(old(posted), posted, names, files)
      ensures AllPresent(files, names) ==> posted == old(posted)
      ensures r.Err? ==> r.error in {Unavailable, Changed, Immutable, PostFailed}
    {
      var kept := retained;
      SentNone(posted, names);
      for k := 0 to |files|
        invariant Valid() && Grew(old(listing), listing) && Collected(kept, listing)
        invariant SettledUpTo(site, listing, kept, files, names, k)
        invariant Sent(old(posted), posted, names, files[..k])
        invariant AllPresent(files, names) ==> posted == old(posted)
      {
        ghost var asked := posted;
        var turn := SendTurn(site, files, k, names, selected, kept);
        SentTurn(old(posted), asked, posted, names, files, k);
        if turn.Err? {
          return turn;
        }
        kept := turn.value;
      }
      assert files[..|files|] == files;
      SettledAll(site, listing, kept, files, names);
      return Ok(kept);
    }

    /** One turn of that loop. */
    method SendTurn(site: Site, files: seq<File>, k: nat, names: set<string>, selected: Record,
                    kept: map<string, Asset>)
      returns (r: Result<map<string, Asset>>)
      requires Valid() && k < |files| && Collected(kept, listing)
      requires SettledUpTo(site, listing, kept, files, names, k)
      modifies this
      ensures Valid() && Grew(old(listing), listing)
      ensures posted == old(posted) || (posted == old(posted) + [files[k].name] && files[k].name !in names)
      ensures r.Ok? ==> Collected(r.value, listing) && SettledUpTo(site, listing, r.value, files, names, k + 1)
      ensures r.Err? ==> r.error in {Unavailable, Changed, Immutable, PostFailed}
    {
      var f := files[k];
      if f.name in names {
        return Ok(kept);
      }
      ghost var before := listing;
      var sent := Send(site, f, selected);
      SettledKept(site, before, listing, kept, kept, files);
      if sent.Err? {
        return Err(sent.error);
      }
      var more := if sent.value.Some? then kept[f.name := sent.value.value] else kept;
      SettledKept(site, listing, listing, kept, more, files);
      assert Settled(site, listing, more, f);
      return Ok(more);
    }

    /** `upload_files`. */
    method UploadFiles(site: Site, files: seq<File>) returns (r: Result<()>)
      requires Valid()
      modifies this
      ensures Valid() && Grew(old(listing), listing)
      ensures r.Ok? ==> forall f <- files :: Held(site, listing, f)
      ensures (exists f <- files :: Collides(site, old(listing), f)) ==> r.Err? && posted == old(posted)
      ensures (forall f <- files :: Held(site, old(listing), f)) ==> posted == old(posted)
      ensures r.Err? && r.error in {Differs, TooMany} ==> posted == old(posted)
      ensures Sent(old(posted), posted, Names(old(listing)), files)
      ensures r.Err? ==> r.error in {Unavailable, Differs, TooMany, Changed, Immutable, PostFailed}
    {
      ghost var first := listing;
      var selected := Lookup();
      if selected == None {
        return Err(Unavailable);
      }
      ghost var atSnapshot := listing;
      var existing, _ := Assets();
      if existing.Err? {
        return Err(existing.error);
      }
      var names := existing.value.Keys;
      SnapshotNames(first, atSnapshot, existing.value, listing);
      var collisions := CheckCollisions(site, files, existing.value);
      if collisions.Err? {
        return Err(collisions.error);
      }
      NoCollisions(site, first, listing, names, collisions.value, files);
      var wanted := set f <- files :: f.name;
      if |names + wanted| > LIMIT {
        return Err(TooMany);
      }
      var sent := SendMissing(site, files, names, selected.value, collisions.value);
      if sent.Err? {
        return Err(sent.error);
      }
      ghost var after := listing;
      r := Verify(site, files, selected.value, sent.value);
      forall f | f in files ensures Held(site, listing, f) {
        assert Settled(site, after, sent.value, f);
        HeldKept(site, after, listing, f);
      }
    }
  }

  /** The files handled so far, and those the snapshot already had, stand as they should. */
  ghost predicate SettledUpTo(site: Site, listing: seq<Asset>, kept: map<string, Asset>, files: seq<File>,
                              names: set<string>, k: nat)
  {
    forall i | 0 <= i < |files| && (i < k || files[i].name in names) :: Settled(site, listing, kept, files[i])
  }

  predicate AllPresent(files: seq<File>, names: set<string>) {
    forall k | 0 <= k < |files| :: files[k].name in names
  }

  lemma SettledAll(site: Site, listing: seq<Asset>, kept: map<string, Asset>, files: seq<File>, names: set<string>)
    requires SettledUpTo(site, listing, kept, files, names, |files|)
    ensures AllSettled(site, listing, kept, files)
  {
  }

  ghost predicate AllSettled(site: Site, listing: seq<Asset>, retained: map<string, Asset>, files: seq<File>) {
    forall f <- files :: Settled(site, listing, retained, f)
  }

  function FileNames(files: seq<File>): (names: seq<string>)
    ensures |names| == |files|
  {
    seq(|files|, k requires 0 <= k < |files| => files[k].name)
  }

  /** Requests were only appended, at most one for each listed file and none for a name
      already there. */
  predicate Sent(before: seq<string>, after: seq<string>, names: set<string>, files: seq<File>) {
    && before <= after
    && multiset(after[|before|..]) <= multiset(FileNames(files))
    && forall k | |before| <= k < |after| :: after[k] !in names
  }

  lemma SentNone(before: seq<string>, names: set<string>)
    ensures Sent(before, before, names, [])
  {
  }

  /** One file more, with or without its request. */
  lemma SentTurn(before: seq<string>, asked: seq<string>, after: seq<string>, names: set<string>,
                 files: seq<File>, k: nat)
    requires k < |files| && Sent(before, asked, names, files[..k])
    requires after == asked || (after == asked + [files[k].name] && files[k].name !in names)
    ensures Sent(before, after, names, files[..k + 1]) && Sent(before, after, names, files)
  {
    assert FileNames(files[..k + 1]) == FileNames(files[..k]) + [files[k].name];
    if after != asked {
      assert after[|before|..] == asked[|before|..] + [files[k].name];
    }
    assert FileNames(files) == FileNames(files[..k + 1]) + FileNames(files[k + 1..]);
  }

  /** For files of different names, each name is requested at most once. */
  lemma OnceEach(before: seq<string>, after: seq<string>, names: set<string>, files: seq<File>, i: nat, j: nat)
    requires Sent(before, after, names, files) && |before| <= i < j < |after|
    requires forall m, n | 0 <= m < n < |files| :: files[m].name != files[n].name
    ensures after[i] != after[j]
  {
    if after[i] == after[j] {
      TwiceIn(after[|before|..], i - |before|, j - |before|);
      OnceIn(FileNames(files), after[i]);
    }
  }

  lemma TwiceIn(names: seq<string>, i: nat, j: nat)
    requires i < j < |names| && names[i] == names[j]
    ensures multiset(names)[names[i]] >= 2
  {
    assert names == names[..j] + names[j..];
    assert names[..j][i] == names[i] && names[j..][0] == names[i];
    assert names[i] in multiset(names[..j]) && names[i] in multiset(names[j..]);
  }

  lemma {:induction false} OnceIn(names: seq<string>, name: string)
    requires forall m, n | 0 <= m < n < |names| :: names[m] != names[n]
    ensures multiset(names)[name] <= 1
  {
    if names != [] {
      var prefix, last := names[..|names| - 1], names[|names| - 1];
      assert names == prefix + [last];
      OnceIn(prefix, name);
      if name == last {
        assert forall m | 0 <= m < |prefix| :: prefix[m] != names[|prefix|];
        assert name !in multiset(prefix);
      }
    }
  }

  lemma SnapshotNames(first: seq<Asset>, before: seq<Asset>, existing: map<string, Asset>, after: seq<Asset>)
    requires Grew(first, before) && Between(before, existing, after)
    ensures Names(first) <= existing.Keys
  {
  }

  lemma NoCollisions(site: Site, first: seq<Asset>, listing: seq<Asset>, names: set<string>,
                     retained: map<string, Asset>, files: seq<File>)
    requires Sorted(listing) && Grew(first, listing) && Names(first) <= names
    requires forall f <- files :: f.name in names ==> Settled(site, listing, retained, f)
    ensures forall f <- files :: !Collides(site, first, f)
    ensures forall f <- files :: Held(site, first, f) ==> f.name in names
  {
    forall f | f in files
      ensures !Collides(site, first, f) && (Held(site, first, f) ==> f.name in names)
    {
      HeldKept(site, first, listing, f);
      if Collides(site, first, f) {
        var a :| a in first && a.name == f.name;
        assert a.name in Names(first);
        HeldNorCollides(site, listing, f);
      }
      if Held(site, first, f) {
        var a :| a in first && Suits(site, a, f);
        assert a.name in Names(first);
      }
    }
  }

  /** Running the same upload again after it returned normally posts nothing, whatever
      the rivals did in between. */
  method UploadTwice(site: Site, release: Release, files: seq<File>)
    returns (first: Result<()>, between: seq<string>, second: Result<()>)
    requires release.Valid()
    modifies release
    ensures release.Valid() && Grew(old(release.listing), release.listing)
    ensures first.Ok? ==> release.posted == between
    ensures Sent(old(release.posted), between, Names(old(release.listing)), files)
  {
    first := release.UploadFiles(site, files);
    between := release.posted;
    ghost var listed := release.listing;
    release.Rivals();
    forall f | f in files { HeldKept(site, listed, release.listing, f); }
    second := release.UploadFiles(site, files);
  }

  /** How a finished file stands: retained as the listed asset, or listed with its own bytes. */
  predicate Settled(site: Site, listing: seq<Asset>, retained: map<string, Asset>, f: File) {
    && Held(site, listing, f)
    && (f.name !in retained ==> exists a <- listing :: a.name == f.name && Matches(site, a, f))
  }

  lemma SettledKept(site: Site, before: seq<Asset>, after: seq<Asset>,
                    retained: map<string, Asset>, more: map<string, Asset>, files: seq<File>)
    requires Grew(before, after) && retained.Keys <= more.Keys
    ensures forall f <- files :: Settled(site, before, retained, f) ==> Settled(site, after, more, f)
  {
  }
}
