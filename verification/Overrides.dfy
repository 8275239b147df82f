/** `overrides`: one launch's assignments folded into one record. */
module Overrides {
  import opened Options
  import opened Strings
  import opened Settings

  datatype Limits = Limits(min: Option<int>, max: Option<int>)

  datatype ModifierOverride = ModifierOverride(enabled: Option<bool>, settings: map<string, Value>)

  datatype ScopedSettings = ScopedSettings(scope: Scope, values: map<string, Value>)

  datatype LaunchOverride = LaunchOverride(settings: Option<ScopedSettings>, modifiers: map<string, ModifierOverride>,
                                           cpu: Option<Limits>, gpu: Option<Limits>)

  const NOTHING := LaunchOverride(None, map[], None, None)

  /** The paths one launch can change. */
  predicate Changeable(p: Path) {
    p == CpuMin || p == CpuMax || p == GpuMin || p == GpuMax || p.Setting? || p.ModifierEnabled? || p.ModifierSetting?
  }

  /** The values `Resolves` gives these paths. */
  predicate Storable(p: Path, v: Value) {
    && IsScalar(v)
    && (p.ModifierEnabled? ==> v.Bool?)
    && (p == CpuMin || p == CpuMax || p == GpuMin || p == GpuMax ==> v.Int?)
  }

  function Min(l: Option<Limits>): Option<int> {
    if l.Some? then l.value.min else None
  }

  function Max(l: Option<Limits>): Option<int> {
    if l.Some? then l.value.max else None
  }

  function AsInt(n: Option<int>): Option<Value> {
    if n.Some? then Some(Int(n.value)) else None
  }

  function Of(m: map<string, ModifierOverride>, id: string): ModifierOverride {
    if id in m then m[id] else ModifierOverride(None, map[])
  }

  function At(m: map<string, Value>, key: string): Option<Value> {
    if key in m then Some(m[key]) else None
  }

  /** What the record holds at a path. */
  function Lookup(l: LaunchOverride, p: Path): Option<Value> {
    match p
    case CpuMin => AsInt(Min(l.cpu))
    case CpuMax => AsInt(Max(l.cpu))
    case GpuMin => AsInt(Min(l.gpu))
    case GpuMax => AsInt(Max(l.gpu))
    case Setting(key) => if l.settings.Some? then At(l.settings.value.values, key) else None
    case ModifierEnabled(id) =>
      var enabled := Of(l.modifiers, id).enabled;
      if enabled.Some? then Some(Bool(enabled.value)) else None
    case ModifierSetting(id, key) => At(Of(l.modifiers, id).settings, key)
    case _ => None
  }

  function Put(l: LaunchOverride, scope: Scope, p: Path, v: Value): LaunchOverride
    requires Changeable(p) && Storable(p, v)
  {
    match p
    case CpuMin => l.(cpu := Some(Limits(Some(v.n), Max(l.cpu))))
    case CpuMax => l.(cpu := Some(Limits(Min(l.cpu), Some(v.n))))
    case GpuMin => l.(gpu := Some(Limits(Some(v.n), Max(l.gpu))))
    case GpuMax => l.(gpu := Some(Limits(Min(l.gpu), Some(v.n))))
    case Setting(key) =>
      var was := if l.settings.Some? then l.settings.value else ScopedSettings(scope, map[]);
      l.(settings := Some(was.(values := was.values[key := v])))
    case ModifierEnabled(id) => l.(modifiers := l.modifiers[id := Of(l.modifiers, id).(enabled := Some(v.b))])
    case ModifierSetting(id, key) =>
      var was := Of(l.modifiers, id);
      l.(modifiers := l.modifiers[id := was.(settings := was.settings[key := v])])
  }

  /** An assignment changes its own path and no other. */
  lemma PutLookup(l: LaunchOverride, scope: Scope, p: Path, v: Value, q: Path)
    requires Changeable(p) && Storable(p, v)
    ensures Lookup(Put(l, scope, p, v), q) == if q == p then Some(v) else Lookup(l, q)
  {
  }

  /** The value of the last assignment to a path. */
  function Last(resolved: seq<(Path, Value)>, p: Path): Option<Value> {
    if resolved == [] then None
    else if resolved[|resolved| - 1].0 == p then Some(resolved[|resolved| - 1].1)
    else Last(resolved[..|resolved| - 1], p)
  }

  lemma LastSnoc(resolved: seq<(Path, Value)>, p: Path, v: Value, q: Path)
    ensures Last(resolved + [(p, v)], q) == if q == p then Some(v) else Last(resolved, q)
  {
  }

  /** The record holds exactly the last assignment of each path. */
  ghost predicate Holds(l: LaunchOverride, resolved: seq<(Path, Value)>, scope: Scope) {
    && (forall p :: Lookup(l, p) == Last(resolved, p))
    && (l.settings.Some? ==> l.settings.value.scope == scope)
  }

  lemma HoldsSnoc(l: LaunchOverride, resolved: seq<(Path, Value)>, scope: Scope, p: Path, v: Value)
    requires Holds(l, resolved, scope) && Changeable(p) && Storable(p, v)
    ensures Holds(Put(l, scope, p, v), resolved + [(p, v)], scope)
  {
    forall q ensures Lookup(Put(l, scope, p, v), q) == Last(resolved + [(p, v)], q) {
      PutLookup(l, scope, p, v, q);
      LastSnoc(resolved, p, v, q);
    }
  }

  function PlaceOf(runner: string): Place {
    Place(Launch, Runner(runner))
  }

  /** The assignment reads `key=value` and the key resolves to this path and value. */
  predicate Assigns(c: Reader, s: Snapshot, runner: string, assignment: string, p: Path, v: Value) {
    var cut := Cut(assignment);
    && cut.Some? && cut.value.0 != ""
    && Resolves(c, s, PlaceOf(runner), cut.value.0, Some(cut.value.1), p, Some(v))
    && Changeable(p)
  }

  predicate AllAssign(c: Reader, s: Snapshot, runner: string, assignments: seq<string>, resolved: seq<(Path, Value)>) {
    && |resolved| == |assignments|
    && forall k | 0 <= k < |resolved| :: Assigns(c, s, runner, assignments[k], resolved[k].0, resolved[k].1)
  }

  predicate Inverted(resolved: seq<(Path, Value)>, min: Path, max: Path) {
    var a, b := Last(resolved, min), Last(resolved, max);
    a.Some? && b.Some? && a.value.Int? && b.value.Int? && a.value.n > b.value.n
  }

  datatype Refusal = NotAnAssignment | Unresolved(error: Error) | NotForOneLaunch | MinimumAboveMaximum

  datatype Outcome = Folded(launch: LaunchOverride) | Refused(refusal: Refusal)

  /** One turn of the loop: the path and value of one assignment. */
  method ReadAssignment(c: Reader, s: Snapshot, runner: string, assignment: string)
    returns (r: Option<(Path, Value)>, refusal: Refusal)
    ensures r.Some? ==> Assigns(c, s, runner, assignment, r.value.0, r.value.1) && Storable(r.value.0, r.value.1)
    ensures r.None? ==> forall p, v :: !Assigns(c, s, runner, assignment, p, v)
  {
    refusal := NotAnAssignment;
    var cut := Cut(assignment);
    if cut.None? || cut.value.0 == "" {
      return None, refusal;
    }
    var place, key, input := PlaceOf(runner), cut.value.0, cut.value.1;
    var result := Resolve(c, s, place, key, Some(input));
    match result
    case Err(error) => return None, Unresolved(error);
    case Ok(path, value) =>
      ResolvedValue(c, s, place, key, input, path, value.value);
      OneLaunchPath(c, s, runner, key, input, path, value);
      if path.ServiceSetting? {
        NoOther(c, s, runner, assignment, key, input, path, value);
        return None, NotForOneLaunch;
      }
      return Some((path, value.value)), refusal;
  }

  /** One launch never resolves to a governor or a runner choice. */
  lemma OneLaunchPath(c: Reader, s: Snapshot, runner: string, key: string, input: string, p: Path, v: Option<Value>)
    requires Resolves(c, s, PlaceOf(runner), key, Some(input), p, v)
    ensures Changeable(p) || p.ServiceSetting?
  {
    if Builtin(s, PlaceOf(runner), key).None? {
      assert p in Paths(Offers(c, s, PlaceOf(runner), key));
      var o :| o in Offers(c, s, PlaceOf(runner), key) && o.0 == p;
      OffersPrint(c, s, PlaceOf(runner), key, o);
    }
  }

  lemma NoOther(c: Reader, s: Snapshot, runner: string, assignment: string, key: string, input: string,
                path: Path, value: Option<Value>)
    requires Cut(assignment) == Some((key, input)) && Resolves(c, s, PlaceOf(runner), key, Some(input), path, value)
    requires path.ServiceSetting?
    ensures forall p, v :: !Assigns(c, s, runner, assignment, p, v)
  {
  }

  ghost predicate Unassignable(c: Reader, s: Snapshot, runner: string, assignment: string) {
    forall p, v :: !Assigns(c, s, runner, assignment, p, v)
  }

  /** The loop over the assignments. */
  method Fold(c: Reader, s: Snapshot, runner: string, assignments: seq<string>)
    returns (r: Outcome, ghost resolved: seq<(Path, Value)>)
    ensures r.Folded? ==> AllAssign(c, s, runner, assignments, resolved) && Holds(r.launch, resolved, Runner(runner))
    ensures r.Refused? ==> exists k :: 0 <= k < |assignments| && Unassignable(c, s, runner, assignments[k])
  {
    resolved := [];
    var launch := NOTHING;
    for k := 0 to |assignments|
      invariant AllAssign(c, s, runner, assignments[..k], resolved) && Holds(launch, resolved, Runner(runner))
    {
      var read, refusal := ReadAssignment(c, s, runner, assignments[k]);
      if read.None? {
        assert Unassignable(c, s, runner, assignments[k]);
        return Refused(refusal), resolved;
      }
      var (path, value) := read.value;
      HoldsSnoc(launch, resolved, Runner(runner), path, value);
      AllAssignSnoc(c, s, runner, assignments[..k], resolved, assignments[k], path, value);
      assert assignments[..k + 1] == assignments[..k] + [assignments[k]];
      launch := Put(launch, Runner(runner), path, value);
      resolved := resolved + [(path, value)];
    }
    assert assignments[..|assignments|] == assignments;
    return Folded(launch), resolved;
  }

  lemma AllAssignSnoc(c: Reader, s: Snapshot, runner: string, assignments: seq<string>, resolved: seq<(Path, Value)>,
                      assignment: string, p: Path, v: Value)
    requires AllAssign(c, s, runner, assignments, resolved) && Assigns(c, s, runner, assignment, p, v)
    ensures AllAssign(c, s, runner, assignments + [assignment], resolved + [(p, v)])
  {
  }

  predicate LimitsInverted(resolved: seq<(Path, Value)>) {
    Inverted(resolved, CpuMin, CpuMax) || Inverted(resolved, GpuMin, GpuMax)
  }

  /** The record of some resolution of all assignments, with no minimum above its maximum. */
  ghost predicate Folds(c: Reader, s: Snapshot, runner: string, assignments: seq<string>, l: LaunchOverride) {
    exists resolved :: AllAssign(c, s, runner, assignments, resolved)
                    && Holds(l, resolved, Runner(runner)) && !LimitsInverted(resolved)
  }

  /** `overrides`: the fold keeps the last assignment of each path and is refused exactly
      when some assignment names nothing for one launch or a minimum ends above its maximum. */
  method Override(c: Reader, s: Snapshot, runner: string, assignments: seq<string>) returns (r: Outcome)
    ensures r.Folded? ==> Folds(c, s, runner, assignments, r.launch)
    ensures r.Refused? ==>
              || (exists k :: 0 <= k < |assignments| && Unassignable(c, s, runner, assignments[k]))
              || (exists resolved :: AllAssign(c, s, runner, assignments, resolved) && LimitsInverted(resolved))
  {
    ghost var resolved;
    r, resolved := Fold(c, s, runner, assignments);
    if r.Folded? {
      AboveIsInverted(r.launch, resolved, Runner(runner));
      if Above(r.launch.cpu) || Above(r.launch.gpu) {
        return Refused(MinimumAboveMaximum);
      }
    }
  }

  /** The assignments determine what is resolved, so acceptance and refusal exclude each other. */
  lemma OneResolution(c: Reader, s: Snapshot, runner: string, assignments: seq<string>,
                      resolved: seq<(Path, Value)>, other: seq<(Path, Value)>)
    requires AllAssign(c, s, runner, assignments, resolved) && AllAssign(c, s, runner, assignments, other)
    ensures resolved == other
  {
    forall k | 0 <= k < |resolved| ensures resolved[k] == other[k] {
      SameAssignment(c, s, runner, assignments[k], resolved[k].0, resolved[k].1, other[k].0, other[k].1);
    }
  }

  lemma SameAssignment(c: Reader, s: Snapshot, runner: string, a: string, p: Path, v: Value, q: Path, w: Value)
    requires Assigns(c, s, runner, a, p, v) && Assigns(c, s, runner, a, q, w)
    ensures p == q && v == w
  {
    var cut := Cut(a).value;
    OneAnswer(c, s, PlaceOf(runner), cut.0, Some(cut.1), p, Some(v), q, Some(w));
  }

  lemma AboveIsInverted(l: LaunchOverride, resolved: seq<(Path, Value)>, scope: Scope)
    requires Holds(l, resolved, scope)
    ensures Above(l.cpu) <==> Inverted(resolved, CpuMin, CpuMax)
    ensures Above(l.gpu) <==> Inverted(resolved, GpuMin, GpuMax)
  {
  }

  predicate Above(l: Option<Limits>) {
    Min(l).Some? && Max(l).Some? && Min(l).value > Max(l).value
  }

  /** In a folded record every limit is a percentage and no minimum exceeds its maximum. */
  lemma LimitsInRange(c: Reader, s: Snapshot, runner: string, assignments: seq<string>, resolved: seq<(Path, Value)>,
                      l: LaunchOverride, p: Path)
    requires AllAssign(c, s, runner, assignments, resolved) && Holds(l, resolved, Runner(runner))
    requires p == CpuMin || p == CpuMax || p == GpuMin || p == GpuMax
    ensures Lookup(l, p).Some? ==>
              Lookup(l, p).value.Int? && (if IsMinimum(p) then 0 else 1) <= Lookup(l, p).value.n <= 100
  {
    if Last(resolved, p).Some? {
      var k := LastIndex(resolved, p);
      assert Assigns(c, s, runner, assignments[k], p, resolved[k].1);
      var cut := Cut(assignments[k]).value;
      ResolvedValue(c, s, PlaceOf(runner), cut.0, cut.1, p, resolved[k].1);
    }
  }

  /** Where the last assignment to a path stands: none after it names the path. */
  function LastIndex(resolved: seq<(Path, Value)>, p: Path): (k: nat)
    requires Last(resolved, p).Some?
    ensures k < |resolved| && resolved[k].0 == p && Last(resolved, p) == Some(resolved[k].1)
    ensures forall j | k < j < |resolved| :: resolved[j].0 != p
  {
    if resolved[|resolved| - 1].0 == p then |resolved| - 1 else LastIndex(resolved[..|resolved| - 1], p)
  }

  /** Two different keys never write to one path, so the record keeps the last assignment of each key. */
  lemma KeysAreApart(c: Reader, s: Snapshot, runner: string, a: string, b: string, p: Path, v: Value, q: Path, w: Value)
    requires Assigns(c, s, runner, a, p, v) && Assigns(c, s, runner, b, q, w)
    ensures p == q ==> Cut(a).value.0 == Cut(b).value.0
    ensures Cut(a).value.0 == Cut(b).value.0 ==> p == q
  {
    var place, k1, k2 := PlaceOf(runner), Cut(a).value, Cut(b).value;
    PrintsBack(c, s, place, k1.0, Some(k1.1), p, Some(v));
    PrintsBack(c, s, place, k2.0, Some(k2.1), q, Some(w));
    if k1.0 == k2.0 {
      OnlyPath(c, s, place, k1.0, Some(k1.1), p, Some(v), p);
      OnlyPath(c, s, place, k2.0, Some(k2.1), q, Some(w), p);
    }
  }
}
