/** The receipt cutover as a run of applies and rollbacks, each of which may crash between
    two file replacements. */
module Cutover {
  import opened Options
  import opened Strings
  import opened Receipts

  // ----- approvals -----

  predicate WellFormed(values: seq<string>) {
    && (forall k | 0 <= k < |values| :: Cut(values[k]).Some?)
    && (forall j, k | 0 <= j < k < |values| :: Cut(values[j]).value.0 != Cut(values[k]).value.0)
  }

  function NamesOf(values: seq<string>): set<string>
    requires WellFormed(values)
  {
    set k | 0 <= k < |values| :: Cut(values[k]).value.0
  }

  /** The approvals are exactly these values, each under its own name. */
  predicate Lists(approvals: map<string, string>, values: seq<string>)
    requires WellFormed(values)
  {
    && approvals.Keys == NamesOf(values)
    && forall k | 0 <= k < |values| :: approvals[Cut(values[k]).value.0] == Cut(values[k]).value.1
  }

  method ReadApprovals(values: seq<string>) returns (r: Option<map<string, string>>)
    ensures r.Some? <==> WellFormed(values)
    ensures r.Some? ==> Lists(r.value, values)
  {
    var approvals: map<string, string> := map[];
    for k := 0 to |values|
      invariant WellFormed(values[..k]) && Lists(approvals, values[..k])
    {
      var cut := Cut(values[k]);
      if cut.None? || cut.value.0 in approvals {
        Malformed(values, k, approvals);
        return None;
      }
      ListsSnoc(values[..k], values[k], approvals);
      assert values[..k] + [values[k]] == values[..k + 1];
      approvals := approvals[cut.value.0 := cut.value.1];
    }
    assert values[..|values|] == values;
    return Some(approvals);
  }

  lemma Malformed(values: seq<string>, k: nat, approvals: map<string, string>)
    requires k < |values| && WellFormed(values[..k]) && Lists(approvals, values[..k])
    requires Cut(values[k]).None? || Cut(values[k]).value.0 in approvals
    ensures !WellFormed(values)
  {
  }

  lemma ListsSnoc(values: seq<string>, value: string, approvals: map<string, string>)
    requires WellFormed(values) && Lists(approvals, values)
    requires Cut(value).Some? && Cut(value).value.0 !in approvals
    ensures WellFormed(values + [value])
    ensures Lists(approvals[Cut(value).value.0 := Cut(value).value.1], values + [value])
  {
    var more := values + [value];
    forall j | 0 <= j < |values| ensures Cut(more[j]).Some? && Cut(more[j]).value.0 in approvals {
      assert more[j] == values[j];
      assert Cut(values[j]).value.0 in NamesOf(values);
    }
    assert WellFormed(more);
    NamesSnoc(values, value);
  }

  lemma NamesSnoc(values: seq<string>, value: string)
    requires WellFormed(values) && WellFormed(values + [value]) && Cut(value).Some?
    ensures NamesOf(values + [value]) == NamesOf(values) + {Cut(value).value.0}
  {
    var more := values + [value];
    forall name | name in NamesOf(values) ensures name in NamesOf(more) {
      var k :| 0 <= k < |values| && Cut(values[k]).value.0 == name;
      assert more[k] == values[k];
    }
    assert more[|values|] == value;
  }

  predicate Changed(codec: Codec, before: Snapshot, after: Snapshot, name: Name)
    requires name in before && name in after
  {
    codec.parse(before[name]) != codec.parse(after[name])
  }

  /** `changed_approvals` over the selections in the order the directory listed them: the
      approval of each changed selection, keyed by identity. */
  function ChangedApprovals(codec: Codec, names: seq<Name>, before: Snapshot, after: Snapshot): map<string, string>
    requires before.Keys == after.Keys && Readable(codec, after)
    requires forall name | name in names :: name in before
  {
    if names == [] then map[] else
      var earlier, name := ChangedApprovals(codec, names[..|names| - 1], before, after), names[|names| - 1];
      if Changed(codec, before, after, name)
      then earlier[Read(codec, after, name).ident := Read(codec, after, name).approval]
      else earlier
  }

  function ChangedNames(codec: Codec, names: seq<Name>, before: Snapshot, after: Snapshot): set<Name>
    requires before.Keys == after.Keys
    requires forall name | name in names :: name in before
  {
    set name | name in names && Changed(codec, before, after, name)
  }

  predicate Distinct(names: seq<Name>) {
    forall i, j | 0 <= i < j < |names| :: names[i] != names[j]
  }

  /** No two changed selections share an identity. */
  predicate OwnIdents(codec: Codec, names: seq<Name>, before: Snapshot, after: Snapshot)
    requires before.Keys == after.Keys && Readable(codec, after)
    requires forall name | name in names :: name in before
  {
    var changed := ChangedNames(codec, names, before, after);
    forall a, b | a in changed && b in changed && a != b ::
      Read(codec, after, a).ident != Read(codec, after, b).ident
  }

  lemma ChangedNamesSnoc(codec: Codec, names: seq<Name>, before: Snapshot, after: Snapshot)
    requires before.Keys == after.Keys && names != []
    requires forall name | name in names :: name in before
    ensures var prefix, last := names[..|names| - 1], names[|names| - 1];
            ChangedNames(codec, names, before, after) ==
            ChangedNames(codec, prefix, before, after) + if Changed(codec, before, after, last) then {last} else {}
  {
  }

  /** The identities that need an approval are those of the changed selections. */
  lemma {:induction false} ApprovalKeys(codec: Codec, names: seq<Name>, before: Snapshot, after: Snapshot)
    requires before.Keys == after.Keys && Readable(codec, after)
    requires forall name | name in names :: name in before
    ensures ChangedApprovals(codec, names, before, after).Keys
         == set name | name in ChangedNames(codec, names, before, after) :: Read(codec, after, name).ident
  {
    if names != [] {
      ApprovalKeys(codec, names[..|names| - 1], before, after);
      ChangedNamesSnoc(codec, names, before, after);
    }
  }

  /** One approval per changed selection, exactly when no two of them share an identity. */
  lemma {:induction false} OneApprovalEach(codec: Codec, names: seq<Name>, before: Snapshot, after: Snapshot)
    requires before.Keys == after.Keys && Readable(codec, after) && Distinct(names)
    requires forall name | name in names :: name in before
    ensures |ChangedApprovals(codec, names, before, after)| <= |ChangedNames(codec, names, before, after)|
    ensures |ChangedApprovals(codec, names, before, after)| == |ChangedNames(codec, names, before, after)|
       <==> OwnIdents(codec, names, before, after)
  {
    if names != [] {
      var prefix, last := names[..|names| - 1], names[|names| - 1];
      OneApprovalEach(codec, prefix, before, after);
      ChangedNamesSnoc(codec, names, before, after);
      if Changed(codec, before, after, last) {
        ApprovalKeys(codec, prefix, before, after);
        assert last !in ChangedNames(codec, prefix, before, after);
        OwnIdentsSnoc(codec, names, before, after);
      }
    }
  }

  lemma OwnIdentsSnoc(codec: Codec, names: seq<Name>, before: Snapshot, after: Snapshot)
    requires before.Keys == after.Keys && Readable(codec, after) && Distinct(names) && names != []
    requires forall name | name in names :: name in before
    requires Changed(codec, before, after, names[|names| - 1])
    ensures var prefix, last := names[..|names| - 1], names[|names| - 1];
            OwnIdents(codec, names, before, after) <==>
              && OwnIdents(codec, prefix, before, after)
              && Read(codec, after, last).ident !in set name | name in ChangedNames(codec, prefix, before, after)
                                                           :: Read(codec, after, name).ident
  {
    ChangedNamesSnoc(codec, names, before, after);
    assert names[|names| - 1] !in ChangedNames(codec, names[..|names| - 1], before, after);
  }

  /** And then each approval is that selection's own digest. */
  lemma {:induction false} OwnApproval(codec: Codec, names: seq<Name>, before: Snapshot, after: Snapshot, name: Name)
    requires before.Keys == after.Keys && Readable(codec, after) && Distinct(names)
    requires forall n | n in names :: n in before
    requires OwnIdents(codec, names, before, after) && name in ChangedNames(codec, names, before, after)
    ensures Read(codec, after, name).ident in ChangedApprovals(codec, names, before, after)
    ensures ChangedApprovals(codec, names, before, after)[Read(codec, after, name).ident]
         == Read(codec, after, name).approval
  {
    var prefix, last := names[..|names| - 1], names[|names| - 1];
    ChangedNamesSnoc(codec, names, before, after);
    if name != last {
      OwnApproval(codec, prefix, before, after, name);
    }
  }

  /** Two changed selections under one identity need only one approval between them. */
  lemma SharedIdentityNeedsOne(codec: Codec, was: Receipt, now: Receipt, a: Name, b: Name)
    requires RoundTrips(codec) && was != now && a != b
    ensures var before := map[a := codec.dump(was), b := codec.dump(was)];
            var after := map[a := codec.dump(now), b := codec.dump(now)];
            && |ChangedNames(codec, [a, b], before, after)| == 2
            && Readable(codec, after)
            && |ChangedApprovals(codec, [a, b], before, after)| == 1
  {
    var before := map[a := codec.dump(was), b := codec.dump(was)];
    var after := map[a := codec.dump(now), b := codec.dump(now)];
    assert codec.parse(codec.dump(was)) == Some(was) && codec.parse(codec.dump(now)) == Some(now);
    assert ChangedNames(codec, [a, b], before, after) == {a, b};
    ApprovalKeys(codec, [a, b], before, after);
    assert a in ChangedNames(codec, [a, b], before, after);
    assert ChangedApprovals(codec, [a, b], before, after).Keys == {now.ident};
    assert |ChangedApprovals(codec, [a, b], before, after).Keys| == 1;
  }

  // ----- the backup -----

  predicate Holds(root: Root, snapshot: Snapshot) {
    root.Keys == snapshot.Keys && forall name | name in root :: root[name] == Selection(snapshot[name])
  }

  /** Some of the snapshot, perhaps with one directory still without its selection. */
  predicate Part(root: Root, snapshot: Snapshot) {
    root.Keys <= snapshot.Keys
    && forall name | name in root :: root[name] == Selection(snapshot[name]) || root[name] == EmptyFolder
  }

  predicate ReadsBack(root: Root) {
    (forall name | name in root :: Expected(root, name)) && exists name :: name in root && IsName(name)
  }

  /** The two sides as far as a preparation got; None before the directory exists. */
  datatype Backup = Backup(before: Option<Root>, after: Option<Root>)

  /** What `replace` asks of a backup: both sides read, over the same selections. */
  predicate Usable(b: Backup) {
    b.before.Some? && b.after.Some? && ReadsBack(b.before.value) && ReadsBack(b.after.value)
    && b.before.value.Keys == b.after.value.Keys
  }

  /** One side of the backup: for each selection its directory, then its file; a crash may
      come before each. */
  method WriteSide(snapshot: Snapshot) returns (root: Root, crashed: bool)
    requires forall name | name in snapshot :: IsName(name)
    ensures Part(root, snapshot)
    ensures !crashed ==> Holds(root, snapshot)
    ensures crashed ==> root.Keys < snapshot.Keys || exists name :: name in root && root[name] == EmptyFolder
  {
    root := map[];
    var rest := snapshot.Keys;
    while rest != {}
      invariant rest <= snapshot.Keys && root.Keys == snapshot.Keys - rest
      invariant forall name | name in root :: root[name] == Selection(snapshot[name])
      decreases |rest|
    {
      var name :| name in rest;
      crashed := *;
      if crashed {
        return root, true;
      }
      rest := rest - {name};
      root := root[name := EmptyFolder];
      crashed := *;
      if crashed {
        return root, true;
      }
      root := root[name := Selection(snapshot[name])];
    }
    return root, false;
  }

  /** The two sides in turn. However far an interrupted preparation got, a backup that
      `replace` would use is complete on both sides. */
  method WriteBackup(before: Snapshot, after: Snapshot) returns (b: Backup, crashed: bool)
    requires before.Keys == after.Keys && forall name | name in before :: IsName(name)
    ensures Usable(b) ==> Holds(b.before.value, before) && Holds(b.after.value, after)
    ensures !crashed ==> b.before.Some? && b.after.Some? && Holds(b.before.value, before) && Holds(b.after.value, after)
  {
    crashed := *;
    if crashed {
      return Backup(None, None), true;
    }
    var first, second: Root;
    first, crashed := WriteSide(before);
    if crashed {
      return Backup(Some(first), None), true;
    }
    crashed := *;
    if crashed {
      return Backup(Some(first), None), true;
    }
    second, crashed := WriteSide(after);
    b := Backup(Some(first), Some(second));
  }

  // ----- one cutover -----

  datatype Plan = Plan(codec: Codec, readBindings: Bytes -> Option<Bindings>, roots: map<Name, Folder>,
                       names: seq<Name>, before: Snapshot, after: Snapshot)

  /** What `prepare` leaves behind: the names list the before side once each, the after
      side preserves it, and the roots were settled. */
  predicate Sound(p: Plan) {
    && Settled(p.codec, p.roots, p.before)
    && Preserved(p.codec, p.before, p.after)
    && Enumerates(p.names, p.before)
  }

  predicate Enumerates(names: seq<Name>, snapshot: Snapshot) {
    Distinct(names) && (set name | name in names) == snapshot.Keys
  }

  datatype Op = Apply(approve: seq<string>, current: Bytes, reviewed: Bytes) | Rollback

  datatype Outcome = Refused | Crashed | Done

  predicate SameBindings(p: Plan, a: Bytes, b: Bytes) {
    a == b || (p.readBindings(a).Some? && p.readBindings(a) == p.readBindings(b))
  }

  /** Every changed selection approved with exactly its digest, under the reviewed bindings. */
  predicate Reviewed(p: Plan, op: Op)
    requires op.Apply?
  {
    && Readable(p.codec, p.before) && Readable(p.codec, p.after) && p.before.Keys == p.after.Keys
    && (forall name | name in p.names :: name in p.before)
    && WellFormed(op.approve)
    && Lists(ChangedApprovals(p.codec, p.names, p.before, p.after), op.approve)
    && SameBindings(p, op.current, op.reviewed)
  }

  function Goal(p: Plan, op: Op): Snapshot {
    if op.Rollback? then p.before else p.after
  }

  predicate Allowed(p: Plan, op: Op, live: Snapshot) {
    && p.before.Keys == p.after.Keys
    && (op.Apply? ==> Reviewed(p, op))
    && Mixed(p.before, p.after, live)
    && Settled(p.codec, p.roots, live)
  }

  /** What one invocation may do to the live receipts. */
  predicate Step(p: Plan, op: Op, outcome: Outcome, live: Snapshot, live': Snapshot) {
    match outcome
    case Refused => !Allowed(p, op, live) && live' == live
    case Done => Allowed(p, op, live) && live' == Goal(p, op)
    case Crashed => Allowed(p, op, live) && live'.Keys == live.Keys
                    && forall name | name in live :: live'[name] == live[name] || live'[name] == Goal(p, op)[name]
  }

  lemma ListsUnique(a: map<string, string>, b: map<string, string>, values: seq<string>)
    requires WellFormed(values) && Lists(a, values) && Lists(b, values)
    ensures a == b
  {
  }

  lemma {:induction false} NameCount(values: seq<string>)
    requires WellFormed(values)
    ensures |NamesOf(values)| == |values|
  {
    if values != [] {
      var prefix, last := values[..|values| - 1], values[|values| - 1];
      assert values == prefix + [last];
      NameCount(prefix);
      NamesSnoc(prefix, last);
      LastNameNew(prefix, last);
    }
  }

  lemma LastNameNew(prefix: seq<string>, last: string)
    requires WellFormed(prefix) && WellFormed(prefix + [last]) && Cut(last).Some?
    ensures Cut(last).value.0 !in NamesOf(prefix)
  {
    forall k | 0 <= k < |prefix| ensures Cut(prefix[k]).value.0 != Cut(last).value.0 {
      assert Cut((prefix + [last])[k]).value.0 != Cut((prefix + [last])[|prefix|]).value.0;
    }
  }

  /** The live state directory. */
  class State {
    var receipts: Snapshot

    constructor (receipts: Snapshot)
      ensures this.receipts == receipts
    {
      this.receipts := receipts;
    }

    /** `replace`: every check first, then one atomic replacement per selection, in any
        order, with a crash possible before each. */
    method Replace(p: Plan, op: Op) returns (outcome: Outcome)
      modifies this
      ensures Step(p, op, outcome, old(receipts), receipts)
    {
      if p.before.Keys != p.after.Keys {
        return Refused;
      }
      if op.Apply? {
        var reviewed := Review(p, op);
        if !reviewed {
          return Refused;
        }
      }
      if !Mixed(p.before, p.after, receipts) || !Settled(p.codec, p.roots, receipts) {
        return Refused;
      }
      outcome := Write(Goal(p, op));
    }

    method Review(p: Plan, op: Op) returns (ok: bool)
      requires op.Apply? && p.before.Keys == p.after.Keys
      ensures ok <==> Reviewed(p, op)
    {
      var approvals := ReadApprovals(op.approve);
      if approvals.None? || !Readable(p.codec, p.before) || !Readable(p.codec, p.after) {
        return false;
      }
      if exists name :: name in p.names && name !in p.before {
        return false;
      }
      var changed := ChangedApprovals(p.codec, p.names, p.before, p.after);
      if approvals.value != changed {
        if Lists(changed, op.approve) {
          ListsUnique(approvals.value, changed, op.approve);
        }
        return false;
      }
      return SameBindings(p, op.current, op.reviewed);
    }

    /** The writes of `replace`. */
    method Write(goal: Snapshot) returns (outcome: Outcome)
      requires receipts.Keys == goal.Keys
      modifies this
      ensures outcome == Done || outcome == Crashed
      ensures outcome == Done ==> receipts == goal
      ensures receipts.Keys == old(receipts).Keys
      ensures forall name | name in receipts :: receipts[name] == old(receipts)[name] || receipts[name] == goal[name]
    {
      var rest := goal.Keys;
      while rest != {}
        invariant rest <= goal.Keys && receipts.Keys == old(receipts).Keys
        invariant forall name | name in receipts ::
            receipts[name] == if name in rest then old(receipts)[name] else goal[name]
        decreases |rest|
      {
        var crash: bool := *;
        if crash {
          return Crashed;
        }
        var name :| name in rest;
        receipts := receipts[name := goal[name]];
        rest := rest - {name};
      }
      return Done;
    }
  }

  // ----- runs -----

  datatype Event = Event(op: Op, outcome: Outcome, live: Snapshot)

  /** A run from `live`: any sequence of applies, rollbacks, refusals and crashes. */
  predicate Run(p: Plan, live: Snapshot, events: seq<Event>) {
    events == [] ||
    (Step(p, events[0].op, events[0].outcome, live, events[0].live) && Run(p, events[0].live, events[1..]))
  }

  function Final(live: Snapshot, events: seq<Event>): Snapshot {
    if events == [] then live else events[|events| - 1].live
  }

  lemma StepKeepsMixed(p: Plan, op: Op, outcome: Outcome, live: Snapshot, live': Snapshot)
    requires Mixed(p.before, p.after, live) && Step(p, op, outcome, live, live')
    ensures Mixed(p.before, p.after, live')
  {
    if outcome.Crashed? {
      PartlyWritten(p.before, p.after, live, live', op.Rollback?);
    }
  }

  lemma PartlyWritten(before: Snapshot, after: Snapshot, live: Snapshot, live': Snapshot, back: bool)
    requires Mixed(before, after, live) && live'.Keys == live.Keys
    requires forall name | name in live :: live'[name] == live[name] || live'[name] == (if back then before else after)[name]
    ensures Mixed(before, after, live')
  {
  }

  /** Through every run, each live receipt is its before or its after bytes, over the same
      selections, and the state stays settled. */
  lemma {:induction false} RunsStayMixed(p: Plan, live: Snapshot, events: seq<Event>, k: nat)
    requires Sound(p) && Mixed(p.before, p.after, live) && Run(p, live, events) && k < |events|
    ensures Mixed(p.before, p.after, events[k].live) && Settled(p.codec, p.roots, events[k].live)
  {
    var e := events[0];
    StepKeepsMixed(p, e.op, e.outcome, live, e.live);
    if k == 0 {
      MixedSettled(p.codec, p.roots, p.before, p.after, e.live);
    } else {
      RunsStayMixed(p, e.live, events[1..], k - 1);
      assert events[1..][k - 1] == events[k];
    }
  }

  /** After any run the live guards never refuse: a rollback is always allowed, and an
      apply exactly when it is reviewed, whatever the receipts hold by then. */
  lemma NeverStuck(p: Plan, live: Snapshot, events: seq<Event>, op: Op)
    requires Sound(p) && Mixed(p.before, p.after, live) && Run(p, live, events)
    ensures Allowed(p, op, Final(live, events)) <==> (op.Rollback? || Reviewed(p, op))
  {
    if events == [] {
      MixedSettled(p.codec, p.roots, p.before, p.after, live);
    } else {
      RunsStayMixed(p, live, events, |events| - 1);
    }
  }

  lemma {:induction false} LastStep(p: Plan, live: Snapshot, events: seq<Event>)
    requires Run(p, live, events) && events != []
    ensures var last := |events| - 1;
            Step(p, events[last].op, events[last].outcome, Final(live, events[..last]), events[last].live)
  {
    if |events| > 1 {
      var last := |events| - 1;
      LastStep(p, events[0].live, events[1..]);
      assert events[1..][..last - 1] == events[1..last];
      assert events[..last][|events[..last]| - 1] == events[last - 1];
    }
  }

  lemma {:induction false} RunPrefix(p: Plan, live: Snapshot, events: seq<Event>, k: nat)
    requires Run(p, live, events) && k <= |events|
    ensures Run(p, live, events[..k])
  {
    if k > 0 {
      RunPrefix(p, events[0].live, events[1..], k - 1);
      assert events[..k][1..] == events[1..][..k - 1];
    }
  }

  /** Whatever came before, an invocation that is not interrupted ends with every receipt
      on its side: a rollback restores the original bytes, a reviewed apply reaches the
      replacements, and an apply that was not reviewed changes nothing. */
  lemma Completes(p: Plan, live: Snapshot, events: seq<Event>)
    requires Sound(p) && Mixed(p.before, p.after, live) && Run(p, live, events) && events != []
    requires events[|events| - 1].outcome != Crashed
    ensures var last := events[|events| - 1];
            && (last.op.Rollback? ==> last.live == p.before)
            && (last.op.Apply? && Reviewed(p, last.op) ==> last.live == p.after)
            && (last.op.Apply? && !Reviewed(p, last.op) ==> last.live == Final(live, events[..|events| - 1]))
  {
    var k := |events| - 1;
    LastStep(p, live, events);
    RunPrefix(p, live, events, k);
    NeverStuck(p, live, events[..k], events[k].op);
  }

  /** A prepared cutover is sound and starts on its before side. */
  lemma PreparedIsSound(p: Plan, i: Inputs)
    requires i.before == p.before && i.roots == p.roots
    requires Accepted(p.codec, i) && Prepared(p.codec, i, p.after) && Enumerates(p.names, p.before)
    ensures Sound(p) && Mixed(p.before, p.after, i.again)
  {
  }

  /** For a prepared cutover, a reviewed apply carries one approval per changed selection,
      each with that selection's own digest. */
  lemma ReviewedApproves(p: Plan, i: Inputs, op: Op, name: Name)
    requires i.before == p.before && Prepared(p.codec, i, p.after) && Enumerates(p.names, p.before)
    requires op.Apply? && Reviewed(p, op)
    requires name in p.before && Changed(p.codec, p.before, p.after, name)
    ensures |op.approve| == |ChangedNames(p.codec, p.names, p.before, p.after)|
    ensures exists k :: 0 <= k < |op.approve|
              && Cut(op.approve[k]) == Some((Read(p.codec, p.after, name).ident, Read(p.codec, p.after, name).approval))
  {
    OneApprovalEach(p.codec, p.names, p.before, p.after);
    assert OwnIdents(p.codec, p.names, p.before, p.after);
    assert name in p.names by {
      assert name in (set n | n in p.names);
    }
    var approvals := ChangedApprovals(p.codec, p.names, p.before, p.after);
    assert name in ChangedNames(p.codec, p.names, p.before, p.after);
    OwnApproval(p.codec, p.names, p.before, p.after, name);
    NameCount(op.approve);
    assert |approvals| == |approvals.Keys|;
    var ident := Read(p.codec, p.after, name).ident;
    assert ident in NamesOf(op.approve);
    var k :| 0 <= k < |op.approve| && Cut(op.approve[k]).value.0 == ident;
  }
}
