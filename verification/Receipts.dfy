/** Plugin receipts as `migrate-plugin-receipts.py` reads them, what `settled` checks, and
    how `prepare` makes the replacement receipts. */
module Receipts {
  import opened Options

  type Name = string
  type Bytes = string

  datatype Previous = Previous(package: string, rest: string)
  datatype Desired = Desired(state: string, rest: string)

  /** A parsed receipt; `extra` is what it holds beside the six fields, "" if nothing. */
  datatype Receipt = Receipt(ident: string, package: string, kind: string, cacheUrl: string, approval: string,
                             desired: Desired, previous: Option<Previous>, extra: string)

  /** The JSON reader and writer. */
  datatype Codec = Codec(parse: Bytes -> Option<Receipt>, dump: Receipt -> Bytes)

  ghost predicate RoundTrips(codec: Codec) {
    forall r :: codec.parse(codec.dump(r)) == Some(r)
  }

  type Snapshot = map<Name, Bytes>

  predicate Readable(codec: Codec, snapshot: Snapshot) {
    forall name | name in snapshot :: codec.parse(snapshot[name]).Some?
  }

  function Read(codec: Codec, snapshot: Snapshot, name: Name): Receipt
    requires Readable(codec, snapshot) && name in snapshot
  {
    codec.parse(snapshot[name]).value
  }

  // ----- the state directory -----

  datatype Entry = Selection(bytes: Bytes) | EmptyFolder | OtherEntry(isDirectory: bool)

  type Root = map<string, Entry>

  predicate HexDigit(c: char) {
    '0' <= c <= '9' || 'a' <= c <= 'f'
  }

  const PREFIX := "korri-plugin-"

  predicate IsName(name: string) {
    && |name| == |PREFIX| + 64
    && name[..|PREFIX|] == PREFIX
    && forall k | |PREFIX| <= k < |name| :: HexDigit(name[k])
  }

  predicate Expected(root: Root, name: string)
    requires name in root
  {
    && name != "graph-update.json"
    && if IsName(name) then root[name].Selection?
       else if name == "sources" || name == "staging" then root[name].OtherEntry? && root[name].isDirectory
       else name == "lock"
  }

  /** `receipts`: the selections of a state directory, or None where the source raises. */
  method ReadReceipts(root: Root) returns (r: Option<Snapshot>)
    ensures r.Some? <==> && (forall name | name in root :: Expected(root, name))
                         && (exists name :: name in root && IsName(name))
    ensures r.Some? ==>
              && (forall name :: name in r.value <==> name in root && IsName(name))
              && (forall name | name in r.value :: root[name] == Selection(r.value[name]))
  {
    var selected: Snapshot := map[];
    var rest := root.Keys;
    while rest != {}
      invariant rest <= root.Keys
      invariant forall name | name in root && name !in rest :: Expected(root, name)
      invariant forall name :: name in selected <==> name in root && name !in rest && IsName(name)
      invariant forall name | name in selected :: root[name] == Selection(selected[name])
      decreases |rest|
    {
      var name :| name in rest;
      if name == "graph-update.json" {
        return None;
      }
      if !IsName(name) {
        if name == "sources" || name == "staging" {
          if !(root[name].OtherEntry? && root[name].isDirectory) {
            return None;
          }
        } else if name != "lock" {
          return None;
        }
      } else {
        if !root[name].Selection? {
          return None;
        }
        selected := selected[name := root[name].bytes];
      }
      rest := rest - {name};
    }
    if selected == map[] {
      return None;
    }
    var some :| some in selected;
    return Some(selected);
  }

  // ----- settled -----

  datatype Link = Symlink(target: string) | OtherFile

  type Folder = map<string, Link>

  predicate SettledFolder(folder: Folder, r: Receipt) {
    && (forall entry | entry in folder :: entry == "active" || entry == "previous")
    && "active" in folder && folder["active"] == Symlink(r.package)
    && match r.previous
       case None => "previous" !in folder
       case Some(p) => "previous" in folder && folder["previous"] == Symlink(p.package)
  }

  predicate SettledAt(codec: Codec, roots: map<Name, Folder>, snapshot: Snapshot, name: Name)
    requires name in snapshot
  {
    && codec.parse(snapshot[name]).Some?
    && name in roots
    && SettledFolder(roots[name], codec.parse(snapshot[name]).value)
  }

  predicate Settled(codec: Codec, roots: map<Name, Folder>, snapshot: Snapshot) {
    forall name | name in snapshot :: SettledAt(codec, roots, snapshot, name)
  }

  /** The replacements keep package and previous of every selection. */
  predicate Preserved(codec: Codec, before: Snapshot, after: Snapshot) {
    && before.Keys == after.Keys
    && Readable(codec, before) && Readable(codec, after)
    && forall name | name in before ::
         && Read(codec, before, name).package == Read(codec, after, name).package
         && Read(codec, before, name).previous == Read(codec, after, name).previous
  }

  /** Every live receipt is its before or its after bytes. */
  predicate Mixed(before: Snapshot, after: Snapshot, live: Snapshot) {
    && live.Keys == before.Keys == after.Keys
    && forall name | name in live :: live[name] == before[name] || live[name] == after[name]
  }

  /** So every mixture of the two sides is settled where the before side was. */
  lemma MixedSettled(codec: Codec, roots: map<Name, Folder>, before: Snapshot, after: Snapshot, live: Snapshot)
    requires Settled(codec, roots, before) && Preserved(codec, before, after) && Mixed(before, after, live)
    ensures Settled(codec, roots, live)
  {
  }

  // ----- prepare -----

  datatype Binding = Binding(publicKey: string, cacheUrl: string)

  type Bindings = map<string, Binding>

  /** The host and Nix commands: unit name of an identity, and whether a package is
      input-addressed and signed by a key. */
  datatype Host = Host(unitName: string -> Option<string>, inputAddressed: string -> bool,
                       verified: (string, string) -> bool)

  predicate KeepsKeys(bound: Bindings, rebound: Bindings) {
    forall namespace | namespace in bound ::
      namespace in rebound && bound[namespace].publicKey == rebound[namespace].publicKey
  }

  function Namespace(ident: string): string {
    if ident == "" || ident[0] == ':' then "" else [ident[0]] + Namespace(ident[1..])
  }

  predicate RawSettled(r: Receipt) {
    r.extra == "" && (r.desired.state == "Enabled" || r.desired.state == "Disabled") && r.kind == "RawCache"
  }

  predicate Bound(host: Host, bound: Bindings, name: Name, r: Receipt) {
    var namespace := Namespace(r.ident);
    && host.unitName(r.ident) == Some(name)
    && namespace in bound
    && r.cacheUrl == bound[namespace].cacheUrl
    && host.inputAddressed(r.package)
    && host.verified(bound[namespace].publicKey, r.package)
  }

  /** The seeded graph by identity; a later receipt replaces an earlier one. */
  function Keyed(seeded: seq<Receipt>): map<string, Receipt> {
    if seeded == [] then map[]
    else Keyed(seeded[..|seeded| - 1])[seeded[|seeded| - 1].ident := seeded[|seeded| - 1]]
  }

  lemma {:induction false} KeyedIdent(seeded: seq<Receipt>, ident: string)
    requires ident in Keyed(seeded)
    ensures Keyed(seeded)[ident].ident == ident
  {
    if ident != seeded[|seeded| - 1].ident {
      KeyedIdent(seeded[..|seeded| - 1], ident);
    }
  }

  /** The graph holds the last receipt seeded under each identity. */
  lemma {:induction false} KeyedIsLast(seeded: seq<Receipt>, k: nat)
    requires k < |seeded| && forall j | k < j < |seeded| :: seeded[j].ident != seeded[k].ident
    ensures seeded[k].ident in Keyed(seeded) && Keyed(seeded)[seeded[k].ident] == seeded[k]
  {
    if k < |seeded| - 1 {
      KeyedIsLast(seeded[..|seeded| - 1], k);
    }
  }

  function Replacement(next: map<string, Receipt>, r: Receipt): Receipt
    requires r.ident in next
  {
    next[r.ident].(previous := r.previous)
  }

  predicate Replaceable(prior: map<string, Receipt>, next: map<string, Receipt>, r: Receipt) {
    && r.ident in prior && prior[r.ident] == r.(previous := None)
    && r.ident in next
    && next[r.ident].package == r.package && next[r.ident].desired == r.desired
  }

  predicate Migratable(codec: Codec, host: Host, bound: Bindings,
                       prior: map<string, Receipt>, next: map<string, Receipt>, before: Snapshot, name: Name)
    requires name in before
  {
    && codec.parse(before[name]).Some?
    && var r := codec.parse(before[name]).value;
    && RawSettled(r)
    && Bound(host, bound, name, r)
    && Replaceable(prior, next, r)
  }

  /** The state directory, the bindings and the two seeded graphs that `prepare` reads. */
  datatype Inputs = Inputs(host: Host, bound: Bindings, rebound: Bindings,
                           priorGraph: seq<Receipt>, nextGraph: seq<Receipt>,
                           roots: map<Name, Folder>, before: Snapshot, again: Snapshot)

  predicate MigratableAt(codec: Codec, i: Inputs, name: Name)
    requires name in i.before
  {
    Migratable(codec, i.host, i.bound, Keyed(i.priorGraph), Keyed(i.nextGraph), i.before, name)
  }

  predicate Accepted(codec: Codec, i: Inputs) {
    && KeepsKeys(i.bound, i.rebound)
    && Settled(codec, i.roots, i.before)
    && (forall name | name in i.before :: MigratableAt(codec, i, name))
    && i.again == i.before
  }

  /** The bytes of one replacement receipt. */
  function Replaced(codec: Codec, i: Inputs, name: Name): Bytes
    requires name in i.before && MigratableAt(codec, i, name)
  {
    codec.dump(Replacement(Keyed(i.nextGraph), codec.parse(i.before[name]).value))
  }

  /** The loop of `prepare` that builds the after snapshot. */
  method BuildAfter(codec: Codec, i: Inputs) returns (r: Option<Snapshot>)
    ensures r.Some? <==> forall name | name in i.before :: MigratableAt(codec, i, name)
    ensures r.Some? ==> && r.value.Keys == i.before.Keys
                        && forall name | name in r.value :: r.value[name] == Replaced(codec, i, name)
  {
    var after: Snapshot := map[];
    var rest := i.before.Keys;
    while rest != {}
      invariant rest <= i.before.Keys && after.Keys == i.before.Keys - rest
      invariant forall name | name in after :: MigratableAt(codec, i, name) && after[name] == Replaced(codec, i, name)
      decreases |rest|
    {
      var name :| name in rest;
      if !MigratableAt(codec, i, name) {
        return None;
      }
      after, rest := after[name := Replaced(codec, i, name)], rest - {name};
    }
    return Some(after);
  }

  /** `prepare` up to the backup: the after snapshot, or None where the source raises. */
  method Prepare(codec: Codec, i: Inputs) returns (r: Option<Snapshot>)
    requires RoundTrips(codec)
    ensures r.Some? <==> Accepted(codec, i)
    ensures r.Some? ==> Prepared(codec, i, r.value)
  {
    if !KeepsKeys(i.bound, i.rebound) || !Settled(codec, i.roots, i.before) {
      return None;
    }
    r := BuildAfter(codec, i);
    if r.Some? {
      if i.again != i.before {
        return None;
      }
      PreparedHolds(codec, i, r.value);
    }
  }

  /** What an accepted preparation promises: only graph-owned content changes, identities
      included, and no two selections share one. */
  predicate Prepared(codec: Codec, i: Inputs, after: Snapshot) {
    && Preserved(codec, i.before, after)
    && (forall name | name in after ::
          && Read(codec, after, name).ident == Read(codec, i.before, name).ident
          && Read(codec, after, name).desired == Read(codec, i.before, name).desired)
    && DistinctIdents(codec, after)
  }

  predicate DistinctIdents(codec: Codec, snapshot: Snapshot)
    requires Readable(codec, snapshot)
  {
    forall a, b | a in snapshot && b in snapshot && a != b ::
      Read(codec, snapshot, a).ident != Read(codec, snapshot, b).ident
  }

  lemma ReplacedKeeps(codec: Codec, i: Inputs, name: Name)
    requires RoundTrips(codec) && name in i.before && MigratableAt(codec, i, name)
    ensures codec.parse(Replaced(codec, i, name)).Some? && codec.parse(i.before[name]).Some?
    ensures var was, now := codec.parse(i.before[name]).value, codec.parse(Replaced(codec, i, name)).value;
            && now.ident == was.ident && now.desired == was.desired
            && now.package == was.package && now.previous == was.previous
            && i.host.unitName(now.ident) == Some(name)
  {
    var was := codec.parse(i.before[name]).value;
    KeyedIdent(i.nextGraph, was.ident);
    var now := Replacement(Keyed(i.nextGraph), was);
    assert codec.parse(codec.dump(now)) == Some(now);
  }

  lemma PreparedHolds(codec: Codec, i: Inputs, after: Snapshot)
    requires RoundTrips(codec) && Accepted(codec, i)
    requires after.Keys == i.before.Keys
    requires forall name | name in after :: after[name] == Replaced(codec, i, name)
    ensures Prepared(codec, i, after)
  {
    forall name | name in i.before
      ensures codec.parse(after[name]).Some? && codec.parse(i.before[name]).Some?
      ensures var was, now := codec.parse(i.before[name]).value, codec.parse(after[name]).value;
              && now.ident == was.ident && now.desired == was.desired
              && now.package == was.package && now.previous == was.previous
              && i.host.unitName(now.ident) == Some(name)
    {
      ReplacedKeeps(codec, i, name);
    }
  }
}
