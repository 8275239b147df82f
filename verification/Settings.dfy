/** The launch-setting resolver: from a dotted key to one typed path among runners,
    modifiers, services and built-ins, or a refusal. */
module Settings {
  import opened Options

  // ----- snapshots -----

  datatype Layer = Device | System(id: string) | Game(game: string) | Release(game: string, release: string)
                 | Profile(game: string, profile: string) | Launch

  datatype Scope = AnyRunner | Family(family: string) | Runner(id: string)

  datatype Place = Place(layer: Layer, scope: Scope)

  datatype PlaceInfo = PlaceInfo(place: Place, editableKinds: seq<string>)

  /** A schema document, looked into by `Reader.leaf`. */
  type Schema = string

  datatype RunnerInfo = RunnerInfo(id: string, family: Option<string>, selected: bool, schema: Schema)

  datatype ModifierInfo = ModifierInfo(id: string, schema: Option<Schema>)

  datatype ServiceInfo = ServiceInfo(id: string, schema: Option<Schema>)

  datatype Snapshot = Snapshot(places: seq<PlaceInfo>, runners: seq<RunnerInfo>, modifiers: seq<ModifierInfo>,
                               services: seq<ServiceInfo>, governors: Option<seq<seq<string>>>)

  // ----- values -----

  datatype Value = Bool(b: bool) | Int(n: int) | Float(x: real) | Str(s: string) | Compound(text: string)

  datatype Property = Property(kind: Option<string>, choices: Option<seq<Value>>,
                               minimum: Option<real>, maximum: Option<real>)

  /** JSON parsing of a value, and korrid's schema lookup by dotted path. */
  datatype Reader = Reader(parse: string -> Option<Value>, leaf: (Schema, string) -> Option<Property>)

  predicate IsScalar(v: Value) {
    !v.Compound?
  }

  function AsReal(v: Value): Option<real> {
    match v
    case Int(n) => Some(n as real)
    case Float(x) => Some(x)
    case _ => None
  }

  /** The value has the property's type, is one of its choices and within its bounds. */
  predicate Conforms(p: Property, v: Value) {
    && (match p.kind
        case Some(kind) => (kind == "boolean" && v.Bool?) || (kind == "integer" && v.Int?)
                           || (kind == "number" && (v.Int? || v.Float?)) || (kind == "string" && v.Str?)
        case None => IsScalar(v))
    && (p.choices.Some? ==> v in p.choices.value)
    && (AsReal(v).Some? ==>
          && (p.minimum.Some? ==> AsReal(v).value >= p.minimum.value)
          && (p.maximum.Some? ==> AsReal(v).value <= p.maximum.value))
  }

  /** What an input is read as: the text itself for strings, and JSON for the other types;
      without a type the text stands for itself when it is no JSON. */
  predicate ReadsAs(r: Reader, kind: Option<string>, input: string, v: Value) {
    match kind
    case None => if r.parse(input).Some? then r.parse(input) == Some(v) else v == Str(input)
    case Some(k) => if k == "string" then v == Str(input)
                    else (k == "boolean" || k == "integer" || k == "number") && r.parse(input) == Some(v)
  }

  /** `scalar`: the conforming reading of the input, or None exactly when there is none. */
  function Scalar(r: Reader, p: Property, input: string): (v: Option<Value>)
    ensures v.Some? ==> ReadsAs(r, p.kind, input, v.value) && Conforms(p, v.value) && IsScalar(v.value)
    ensures v.None? ==> forall x :: ReadsAs(r, p.kind, input, x) ==> !Conforms(p, x)
  {
    var read := match p.kind
      case Some("string") => Some(Str(input))
      case Some(kind) => if kind == "boolean" || kind == "integer" || kind == "number" then r.parse(input) else None
      case None => if r.parse(input).Some? then r.parse(input) else Some(Str(input));
    if read.Some? && Conforms(p, read.value) then read else None
  }

  // ----- paths -----

  datatype Path =
    | RunnerChoice | CpuMin | CpuMax | CpuGovernor | GpuMin | GpuMax
    | ModifierEnabled(id: string)
    | ModifierSetting(id: string, key: string)
    | ServiceSetting(id: string, key: string)
    | Setting(key: string)

  /** A path written as the dotted key that names it. */
  function Print(p: Path): string {
    match p
    case RunnerChoice => "runner"
    case CpuMin => "cpu.min"
    case CpuMax => "cpu.max"
    case CpuGovernor => "cpu.governor"
    case GpuMin => "gpu.min"
    case GpuMax => "gpu.max"
    case ModifierEnabled(id) => id + ".enabled"
    case ModifierSetting(id, key) => id + "." + key
    case ServiceSetting(id, key) => id + "." + key
    case Setting(key) => key
  }

  function Without(key: string, prefix: string): (rest: Option<string>)
    ensures rest.Some? <==> prefix <= key
    ensures rest.Some? ==> prefix + rest.value == key
  {
    if prefix <= key then Some(key[|prefix|..]) else None
  }

  predicate Under(key: string, section: string) {
    key == section || section + "." <= key
  }

  predicate ReadOnly(key: string) {
    Under(key, "hooks") || Under(key, "env") || Under(key, "args") || Under(key, "cwd") || Under(key, "config")
  }

  // ----- what a place may edit -----

  function Matching(places: seq<PlaceInfo>, place: Place): nat {
    if places == [] then 0
    else Matching(places[..|places| - 1], place) + if places[|places| - 1].place == place then 1 else 0
  }

  predicate Authorized(s: Snapshot, place: Place, kind: string) {
    exists k | 0 <= k < |s.places| ::
      && kind in s.places[k].editableKinds
      && if place.layer == Launch then s.places[k].place.scope == place.scope else s.places[k].place == place
  }

  predicate InScope(r: RunnerInfo, scope: Scope) {
    match scope
    case AnyRunner => r.selected
    case Family(family) => r.family == Some(family)
    case Runner(id) => r.id == id
  }

  // ----- what a key can name -----

  /** A path the key can name, with the schema the snapshot offers for it. */
  type Offer = (Path, Property)

  const BOOLEAN := Property(Some("boolean"), None, None, None)

  function RunnerOffer(c: Reader, s: Snapshot, place: Place, key: string, r: RunnerInfo): seq<Offer> {
    if InScope(r, place.scope) && c.leaf(r.schema, key).Some? && Authorized(s, place, "settings")
    then [(Setting(key), c.leaf(r.schema, key).value)] else []
  }

  function SchemaOffer(c: Reader, id: string, schema: Option<Schema>, key: string, path: (string, string) -> Path)
    : seq<Offer>
  {
    var rest := Without(key, id + ".");
    if rest.Some? && schema.Some? && c.leaf(schema.value, rest.value).Some?
    then [(path(id, rest.value), c.leaf(schema.value, rest.value).value)] else []
  }

  function ModifierOffer(c: Reader, s: Snapshot, place: Place, key: string, m: ModifierInfo): seq<Offer> {
    if !Authorized(s, place, "modifiers") then []
    else (if key == m.id + ".enabled" then [(ModifierEnabled(m.id), BOOLEAN)] else [])
         + SchemaOffer(c, m.id, m.schema, key, (id, rest) => ModifierSetting(id, rest))
  }

  function ServiceOffer(c: Reader, s: Snapshot, place: Place, key: string, v: ServiceInfo): seq<Offer> {
    if !Authorized(s, place, "services") then []
    else SchemaOffer(c, v.id, v.schema, key, (id, rest) => ServiceSetting(id, rest))
  }

  function RunnerOffers(c: Reader, s: Snapshot, place: Place, key: string, runners: seq<RunnerInfo>): set<Offer> {
    set r, o | r in runners && o in RunnerOffer(c, s, place, key, r) :: o
  }

  function ModifierOffers(c: Reader, s: Snapshot, place: Place, key: string, modifiers: seq<ModifierInfo>): set<Offer> {
    set m, o | m in modifiers && o in ModifierOffer(c, s, place, key, m) :: o
  }

  function ServiceOffers(c: Reader, s: Snapshot, place: Place, key: string, services: seq<ServiceInfo>): set<Offer> {
    set v, o | v in services && o in ServiceOffer(c, s, place, key, v) :: o
  }

  /** Every offer of the snapshot for the key, in whatever order the lists come. */
  function Offers(c: Reader, s: Snapshot, place: Place, key: string): set<Offer> {
    RunnerOffers(c, s, place, key, s.runners)
    + ModifierOffers(c, s, place, key, s.modifiers)
    + ServiceOffers(c, s, place, key, s.services)
  }

  function Paths(offers: set<Offer>): set<Path> {
    set o | o in offers :: o.0
  }

  /** The conforming readings of the input under the offered schemas. */
  function Readings(c: Reader, offers: set<Offer>, input: string): set<Value> {
    set o | o in offers && Scalar(c, o.1, input).Some? :: Scalar(c, o.1, input).value
  }

  // ----- built-ins -----

  function Builtin(s: Snapshot, place: Place, key: string): (p: Option<Path>)
    ensures p.Some? ==> Print(p.value) == key
  {
    if key == "cpu.min" && Authorized(s, place, "cpu") then Some(CpuMin)
    else if key == "cpu.max" && Authorized(s, place, "cpu") then Some(CpuMax)
    else if key == "gpu.min" && Authorized(s, place, "gpu") then Some(GpuMin)
    else if key == "gpu.max" && Authorized(s, place, "gpu") then Some(GpuMax)
    else if key == "cpu.governor" && Authorized(s, place, "cpu") && place == Place(Device, AnyRunner)
    then Some(CpuGovernor)
    else if key == "runner" && place.layer != Launch && Authorized(s, place, "runner") && place.scope == AnyRunner
    then Some(RunnerChoice)
    else None
  }

  predicate Digits(s: string) {
    s != "" && forall k | 0 <= k < |s| :: '0' <= s[k] <= '9'
  }

  function Decimal(s: string): nat
    requires s == "" || Digits(s)
  {
    if s == "" then 0 else Decimal(s[..|s| - 1]) * 10 + (s[|s| - 1] as int - '0' as int)
  }

  /** Rust's reading of an 8-bit unsigned integer: digits after an optional plus sign. */
  function ParseU8(s: string): (n: Option<nat>)
    ensures n.Some? ==> n.value < 256
  {
    var digits := if s != "" && s[0] == '+' then s[1..] else s;
    if Digits(digits) && Decimal(digits) < 256 then Some(Decimal(digits)) else None
  }

  function Printed(n: nat): (s: string)
    ensures Digits(s)
  {
    (if n < 10 then "" else Printed(n / 10)) + [('0' as int + n % 10) as char]
  }

  /** A printed number reads back, with or without a plus sign, exactly when it fits eight bits. */
  lemma ParsesPrinted(n: nat)
    ensures ParseU8(Printed(n)) == ParseU8("+" + Printed(n)) == if n < 256 then Some(n) else None
  {
    DecimalPrinted(n);
    assert ("+" + Printed(n))[1..] == Printed(n);
  }

  lemma {:induction false} DecimalPrinted(n: nat)
    ensures Decimal(Printed(n)) == n
  {
    var s := Printed(n);
    if n >= 10 {
      DecimalPrinted(n / 10);
      assert s[..|s| - 1] == Printed(n / 10);
    } else {
      assert s[..|s| - 1] == "";
    }
  }

  /** A printed limit is accepted exactly when it is a percentage of its kind. */
  lemma LimitAccepted(s: Snapshot, p: Path, n: nat)
    requires p == CpuMin || p == CpuMax || p == GpuMin || p == GpuMax
    ensures BuiltinValue(s, p, Printed(n)) == if (if IsMinimum(p) then 0 else 1) <= n <= 100 then Some(Int(n)) else None
  {
    ParsesPrinted(n);
  }

  predicate IsMinimum(p: Path) {
    p == CpuMin || p == GpuMin
  }

  /** The value of a built-in path, or None where the source refuses it. */
  function BuiltinValue(s: Snapshot, p: Path, input: string): (v: Option<Value>)
    ensures v.Some? && p != CpuGovernor && p != RunnerChoice ==>
              v.value.Int? && (if IsMinimum(p) then 0 else 1) <= v.value.n <= 100
  {
    match p
    case CpuGovernor =>
      if s.governors.Some? && s.governors.value != []
         && (forall k | 0 <= k < |s.governors.value| :: input in s.governors.value[k])
      then Some(Str(input)) else None
    case RunnerChoice =>
      if exists k | 0 <= k < |s.runners| :: s.runners[k].id == input then Some(Str(input)) else None
    case _ =>
      var n := ParseU8(input);
      if n.Some? && n.value <= 100 && (n.value > 0 || IsMinimum(p)) then Some(Int(n.value)) else None
  }

  // ----- resolution -----

  /** The offers name one path, and every reading of the input agrees. */
  predicate Named(c: Reader, offers: set<Offer>, input: Option<string>, p: Path, v: Option<Value>) {
    && Paths(offers) == {p}
    && if input.None? then v == None else v.Some? && Readings(c, offers, input.value) == {v.value}
  }

  /** The key resolves to this path and value: it is editable, the place is exposed, and it
      names this path and no other; an input reads the same under every schema it conforms to. */
  predicate Resolves(c: Reader, s: Snapshot, place: Place, key: string, input: Option<string>,
                     p: Path, v: Option<Value>)
  {
    && !ReadOnly(key)
    && (place.layer != Launch ==> Matching(s.places, place) == 1)
    && var offers := Offers(c, s, place, key);
    && match Builtin(s, place, key)
       case None => Named(c, offers, input, p, v)
       case Some(b) => offers == {} && p == b && (if input.None? then v == None
                                                  else v.Some? && v == BuiltinValue(s, b, input.value))
  }

  datatype Error = IsReadOnly | NoSuchPlace | TwoPaths | TwoMeanings | NotConforming | BadBuiltin | UnknownOrAmbiguous

  datatype Result = Ok(path: Path, value: Option<Value>) | Err(error: Error)

  function SetOf(offers: seq<Offer>): set<Offer> {
    set o | o in offers
  }

  lemma SetOfConcat(a: seq<Offer>, b: seq<Offer>)
    ensures SetOf(a + b) == SetOf(a) + SetOf(b)
  {
  }

  /** The loop over the runners in scope. */
  method CollectRunners(c: Reader, s: Snapshot, place: Place, key: string) returns (options: seq<Offer>)
    ensures SetOf(options) == RunnerOffers(c, s, place, key, s.runners)
  {
    options := [];
    for k := 0 to |s.runners|
      invariant SetOf(options) == RunnerOffers(c, s, place, key, s.runners[..k])
    {
      RunnerSnoc(c, s, place, key, s.runners[..k], s.runners[k]);
      assert s.runners[..k + 1] == s.runners[..k] + [s.runners[k]];
      var more := RunnerOffer(c, s, place, key, s.runners[k]);
      SetOfConcat(options, more);
      options := options + more;
    }
    assert s.runners[..|s.runners|] == s.runners;
  }

  lemma RunnerSnoc(c: Reader, s: Snapshot, place: Place, key: string, rs: seq<RunnerInfo>, r: RunnerInfo)
    ensures RunnerOffers(c, s, place, key, rs + [r])
         == RunnerOffers(c, s, place, key, rs) + SetOf(RunnerOffer(c, s, place, key, r))
  {
  }

  /** The loop over the modifiers. */
  method CollectModifiers(c: Reader, s: Snapshot, place: Place, key: string) returns (options: seq<Offer>)
    ensures SetOf(options) == ModifierOffers(c, s, place, key, s.modifiers)
  {
    options := [];
    for k := 0 to |s.modifiers|
      invariant SetOf(options) == ModifierOffers(c, s, place, key, s.modifiers[..k])
    {
      ModifierSnoc(c, s, place, key, s.modifiers[..k], s.modifiers[k]);
      assert s.modifiers[..k + 1] == s.modifiers[..k] + [s.modifiers[k]];
      var more := ModifierOffer(c, s, place, key, s.modifiers[k]);
      SetOfConcat(options, more);
      options := options + more;
    }
    assert s.modifiers[..|s.modifiers|] == s.modifiers;
  }

  lemma ModifierSnoc(c: Reader, s: Snapshot, place: Place, key: string, ms: seq<ModifierInfo>, m: ModifierInfo)
    ensures ModifierOffers(c, s, place, key, ms + [m])
         == ModifierOffers(c, s, place, key, ms) + SetOf(ModifierOffer(c, s, place, key, m))
  {
  }

  /** The loop over the services. */
  method CollectServices(c: Reader, s: Snapshot, place: Place, key: string) returns (options: seq<Offer>)
    ensures SetOf(options) == ServiceOffers(c, s, place, key, s.services)
  {
    options := [];
    for k := 0 to |s.services|
      invariant SetOf(options) == ServiceOffers(c, s, place, key, s.services[..k])
    {
      ServiceSnoc(c, s, place, key, s.services[..k], s.services[k]);
      assert s.services[..k + 1] == s.services[..k] + [s.services[k]];
      var more := ServiceOffer(c, s, place, key, s.services[k]);
      SetOfConcat(options, more);
      options := options + more;
    }
    assert s.services[..|s.services|] == s.services;
  }

  lemma ServiceSnoc(c: Reader, s: Snapshot, place: Place, key: string, vs: seq<ServiceInfo>, v: ServiceInfo)
    ensures ServiceOffers(c, s, place, key, vs + [v])
         == ServiceOffers(c, s, place, key, vs) + SetOf(ServiceOffer(c, s, place, key, v))
  {
  }

  /** The loop that reads the input under each option. */
  method ReadAll(c: Reader, options: seq<Offer>, input: string) returns (values: seq<Value>)
    ensures (set v | v in values) == Readings(c, SetOf(options), input)
  {
    values := [];
    for k := 0 to |options|
      invariant (set v | v in values) == Readings(c, SetOf(options[..k]), input)
    {
      ReadingsSnoc(c, options[..k], options[k], input);
      assert options[..k + 1] == options[..k] + [options[k]];
      var value := Scalar(c, options[k].1, input);
      if value.Some? {
        values := values + [value.value];
      }
    }
    assert options[..|options|] == options;
  }

  lemma ReadingsSnoc(c: Reader, options: seq<Offer>, o: Offer, input: string)
    ensures Readings(c, SetOf(options + [o]), input)
         == Readings(c, SetOf(options), input)
            + if Scalar(c, o.1, input).Some? then {Scalar(c, o.1, input).value} else {}
  {
  }

  lemma AllEqual(values: seq<Value>, all: set<Value>)
    requires values != [] && (set v | v in values) == all
    ensures (forall k | 0 <= k < |values| :: values[k] == values[0]) <==> all == {values[|values| - 1]}
  {
    assert values[|values| - 1] in all && values[0] in all;
    if forall k | 0 <= k < |values| :: values[k] == values[0] {
      assert forall v | v in all :: v == values[0];
    } else {
      var k :| 0 <= k < |values| && values[k] != values[0];
      assert values[k] in all;
    }
  }

  /** The offers' part of `setting`: None where they name nothing. */
  method FromOffers(c: Reader, options: seq<Offer>, input: Option<string>) returns (r: Option<Result>)
    ensures options == [] <==> r == None
    ensures r.Some? ==> SetOf(options) != {}
    ensures r.Some? && r.value.Ok? ==> Named(c, SetOf(options), input, r.value.path, r.value.value)
    ensures r.Some? && r.value.Err? ==> forall p, v :: !Named(c, SetOf(options), input, p, v)
  {
    if options == [] {
      return None;
    }
    var path := options[0].0;
    assert options[0] in SetOf(options) && path in Paths(SetOf(options));
    if exists o :: o in options && o.0 != path {
      ghost var o :| o in options && o.0 != path;
      assert o in SetOf(options) && o.0 in Paths(SetOf(options));
      return Some(Err(TwoPaths));
    }
    assert Paths(SetOf(options)) == {path};
    if input.None? {
      return Some(Ok(path, None));
    }
    var values := ReadAll(c, options, input.value);
    ghost var all := Readings(c, SetOf(options), input.value);
    if values == [] {
      assert all == {};
      return Some(Err(NotConforming));
    }
    AllEqual(values, all);
    if exists k :: 0 <= k < |values| && values[k] != values[0] {
      TwoValues(values, all);
      return Some(Err(TwoMeanings));
    }
    return Some(Ok(path, Some(values[|values| - 1])));
  }

  lemma TwoValues(values: seq<Value>, all: set<Value>)
    requires (set v | v in values) == all && exists k :: 0 <= k < |values| && values[k] != values[0]
    ensures forall v :: all != {v}
  {
    var k :| 0 <= k < |values| && values[k] != values[0];
    assert values[k] in all && values[0] in all;
  }

  /** `setting`: it resolves a key exactly when the key names one path with one reading. */
  method Resolve(c: Reader, s: Snapshot, place: Place, key: string, input: Option<string>) returns (r: Result)
    ensures r.Ok? ==> Resolves(c, s, place, key, input, r.path, r.value)
    ensures r.Err? ==> forall p, v :: !Resolves(c, s, place, key, input, p, v)
  {
    if ReadOnly(key) {
      return Err(IsReadOnly);
    }
    if place.layer != Launch && Matching(s.places, place) != 1 {
      return Err(NoSuchPlace);
    }
    var runners := CollectRunners(c, s, place, key);
    var modifiers := CollectModifiers(c, s, place, key);
    var services := CollectServices(c, s, place, key);
    SetOfConcat(runners, modifiers);
    SetOfConcat(runners + modifiers, services);
    var options := runners + modifiers + services;
    assert SetOf(options) == Offers(c, s, place, key);
    var offered := FromOffers(c, options, input);
    if offered.Some? && offered.value.Err? {
      return offered.value;
    }
    var builtin := Builtin(s, place, key);
    if builtin.None? {
      return if offered.Some? then offered.value else Err(UnknownOrAmbiguous);
    }
    if input.Some? && BuiltinValue(s, builtin.value, input.value).None? {
      return Err(BadBuiltin);
    }
    if offered.Some? {
      return Err(UnknownOrAmbiguous);
    }
    return Ok(builtin.value, if input.None? then None else BuiltinValue(s, builtin.value, input.value));
  }

  // ----- what resolving promises -----

  lemma ModifierPrints(c: Reader, s: Snapshot, place: Place, key: string, m: ModifierInfo, o: Offer)
    requires o in ModifierOffer(c, s, place, key, m)
    ensures Print(o.0) == key && (o.0.ModifierSetting? || (o.0.ModifierEnabled? && o.1 == BOOLEAN))
  {
  }

  lemma ServicePrints(c: Reader, s: Snapshot, place: Place, key: string, v: ServiceInfo, o: Offer)
    requires o in ServiceOffer(c, s, place, key, v)
    ensures Print(o.0) == key && o.0.ServiceSetting?
  {
  }

  lemma OffersPrint(c: Reader, s: Snapshot, place: Place, key: string, o: Offer)
    requires o in Offers(c, s, place, key)
    ensures Print(o.0) == key
    ensures o.0.ModifierEnabled? ==> o.1 == BOOLEAN
    ensures o.0.Setting? || o.0.ModifierEnabled? || o.0.ModifierSetting? || o.0.ServiceSetting?
  {
    if o in RunnerOffers(c, s, place, key, s.runners) {
    } else if o in ModifierOffers(c, s, place, key, s.modifiers) {
      var m :| m in s.modifiers && o in ModifierOffer(c, s, place, key, m);
      ModifierPrints(c, s, place, key, m, o);
    } else {
      var v :| v in s.services && o in ServiceOffer(c, s, place, key, v);
      ServicePrints(c, s, place, key, v, o);
    }
  }

  /** Printing the resolved path gives back the key. */
  lemma PrintsBack(c: Reader, s: Snapshot, place: Place, key: string, input: Option<string>, p: Path, v: Option<Value>)
    requires Resolves(c, s, place, key, input, p, v)
    ensures Print(p) == key
  {
    if Builtin(s, place, key).None? {
      assert p in Paths(Offers(c, s, place, key));
      var o :| o in Offers(c, s, place, key) && o.0 == p;
      OffersPrint(c, s, place, key, o);
    }
  }

  /** A path the key names, whether offered or built in. */
  predicate Names(c: Reader, s: Snapshot, place: Place, key: string, p: Path) {
    p in Paths(Offers(c, s, place, key)) || Builtin(s, place, key) == Some(p)
  }

  /** A resolved path is the only one its key names; so a key that names two is refused. */
  lemma OnlyPath(c: Reader, s: Snapshot, place: Place, key: string, input: Option<string>,
                 p: Path, v: Option<Value>, q: Path)
    requires Resolves(c, s, place, key, input, p, v)
    ensures Names(c, s, place, key, q) <==> q == p
  {
    if Builtin(s, place, key).None? {
      assert Paths(Offers(c, s, place, key)) == {p};
    }
  }

  /** One key, one answer. */
  lemma OneAnswer(c: Reader, s: Snapshot, place: Place, key: string, input: Option<string>,
                  p: Path, v: Option<Value>, p': Path, v': Option<Value>)
    requires Resolves(c, s, place, key, input, p, v) && Resolves(c, s, place, key, input, p', v')
    ensures p == p' && v == v'
  {
    OnlyPath(c, s, place, key, input, p, v, p');
    OnlyPath(c, s, place, key, input, p', v', p');
    if Builtin(s, place, key).None? && input.Some? {
      assert v.value in Readings(c, Offers(c, s, place, key), input.value);
    }
  }

  /** The same snapshot with its lists in another order. */
  predicate Reordered(s: Snapshot, t: Snapshot) {
    && s.places == t.places && s.governors == t.governors
    && multiset(s.runners) == multiset(t.runners)
    && multiset(s.modifiers) == multiset(t.modifiers)
    && multiset(s.services) == multiset(t.services)
  }

  lemma SameElements<T>(a: seq<T>, b: seq<T>, x: T)
    requires multiset(a) == multiset(b)
    ensures x in a <==> x in b
  {
    assert x in a <==> x in multiset(a);
    assert x in b <==> x in multiset(b);
  }

  lemma ReorderedAuthorized(s: Snapshot, t: Snapshot, place: Place, kind: string)
    requires s.places == t.places
    ensures Authorized(s, place, kind) == Authorized(t, place, kind)
  {
  }

  lemma ReorderedOffers(c: Reader, s: Snapshot, t: Snapshot, place: Place, key: string, o: Offer)
    requires Reordered(s, t) && o in Offers(c, s, place, key)
    ensures o in Offers(c, t, place, key)
  {
    if o in RunnerOffers(c, s, place, key, s.runners) {
      var r :| r in s.runners && o in RunnerOffer(c, s, place, key, r);
      SameElements(s.runners, t.runners, r);
      ReorderedAuthorized(s, t, place, "settings");
      assert o in RunnerOffer(c, t, place, key, r);
    } else if o in ModifierOffers(c, s, place, key, s.modifiers) {
      var m :| m in s.modifiers && o in ModifierOffer(c, s, place, key, m);
      SameElements(s.modifiers, t.modifiers, m);
      ReorderedAuthorized(s, t, place, "modifiers");
      assert o in ModifierOffer(c, t, place, key, m);
    } else {
      var v :| v in s.services && o in ServiceOffer(c, s, place, key, v);
      SameElements(s.services, t.services, v);
      ReorderedAuthorized(s, t, place, "services");
      assert o in ServiceOffer(c, t, place, key, v);
    }
  }

  lemma ReorderedBuiltin(s: Snapshot, t: Snapshot, place: Place, key: string, input: string)
    requires Reordered(s, t)
    ensures Builtin(s, place, key) == Builtin(t, place, key)
    ensures forall p :: BuiltinValue(s, p, input) == BuiltinValue(t, p, input)
  {
    ReorderedAuthorized(s, t, place, "cpu");
    ReorderedAuthorized(s, t, place, "gpu");
    ReorderedAuthorized(s, t, place, "runner");
    RunnerIds(s.runners, t.runners, input);
    RunnerIds(t.runners, s.runners, input);
  }

  lemma RunnerIds(a: seq<RunnerInfo>, b: seq<RunnerInfo>, id: string)
    requires multiset(a) == multiset(b)
    ensures (exists k :: 0 <= k < |a| && a[k].id == id) ==> exists k :: 0 <= k < |b| && b[k].id == id
  {
    if k :| 0 <= k < |a| && a[k].id == id {
      SameElements(a, b, a[k]);
    }
  }

  /** The answer does not depend on the order of runners, modifiers or services. */
  lemma OrderIrrelevant(c: Reader, s: Snapshot, t: Snapshot, place: Place, key: string, input: Option<string>,
                        p: Path, v: Option<Value>)
    requires Reordered(s, t) && Resolves(c, s, place, key, input, p, v)
    ensures Resolves(c, t, place, key, input, p, v)
  {
    forall o | o in Offers(c, s, place, key) ensures o in Offers(c, t, place, key) {
      ReorderedOffers(c, s, t, place, key, o);
    }
    forall o | o in Offers(c, t, place, key) ensures o in Offers(c, s, place, key) {
      ReorderedOffers(c, t, s, place, key, o);
    }
    assert Offers(c, s, place, key) == Offers(c, t, place, key);
    ReorderedBuiltin(s, t, place, key, if input.Some? then input.value else "");
  }

  /** A resolved value conforms to a schema offered for its path, and is what every other
      such schema that accepts the input makes of it; limits are percentages. */
  lemma ResolvedValue(c: Reader, s: Snapshot, place: Place, key: string, input: string, p: Path, v: Value)
    requires Resolves(c, s, place, key, Some(input), p, Some(v))
    ensures IsScalar(v)
    ensures p.ModifierEnabled? ==> v.Bool?
    ensures p == CpuMin || p == GpuMin ==> v.Int? && 0 <= v.n <= 100
    ensures p == CpuMax || p == GpuMax ==> v.Int? && 1 <= v.n <= 100
    ensures Builtin(s, place, key).None? ==>
              && (exists o :: o in Offers(c, s, place, key) && o.0 == p && Conforms(o.1, v))
              && (forall o | o in Offers(c, s, place, key) && Scalar(c, o.1, input).Some? ::
                    Scalar(c, o.1, input) == Some(v))
  {
    var offers := Offers(c, s, place, key);
    if Builtin(s, place, key).None? {
      assert v in Readings(c, offers, input);
      var o :| o in offers && Scalar(c, o.1, input) == Some(v);
      OffersPrint(c, s, place, key, o);
      assert o.0 in Paths(offers);
      forall o | o in offers && Scalar(c, o.1, input).Some? ensures Scalar(c, o.1, input) == Some(v) {
        assert Scalar(c, o.1, input).value in Readings(c, offers, input);
      }
    }
  }

  /** The value is every offered schema's own reading of the input, and so conforms to all
      of them, exactly when every one of them accepts the input. */
  lemma AllSchemasAgree(c: Reader, s: Snapshot, place: Place, key: string, input: string, p: Path, v: Value)
    requires Resolves(c, s, place, key, Some(input), p, Some(v)) && Builtin(s, place, key).None?
    ensures (forall o | o in Offers(c, s, place, key) :: Scalar(c, o.1, input) == Some(v))
       <==> (forall o | o in Offers(c, s, place, key) :: Scalar(c, o.1, input).Some?)
    ensures (forall o | o in Offers(c, s, place, key) :: Scalar(c, o.1, input).Some?) ==>
              forall o | o in Offers(c, s, place, key) :: Conforms(o.1, v)
  {
    ResolvedValue(c, s, place, key, input, p, v);
  }

  // ----- one schema is enough -----

  function UpTo(limit: real): Property {
    Property(Some("integer"), None, None, Some(limit))
  }

  /** Only "50" is JSON, and "fps" is the only setting of each schema. */
  const FIFTY := Reader(s => if s == "50" then Some(Int(50)) else None,
                        (schema, path) =>
                          if path == "fps" then Some(UpTo(if schema == "low" then 10.0 else 100.0)) else None)

  const LOW := RunnerInfo("a", Some("f"), true, "low")
  const HIGH := RunnerInfo("b", Some("f"), true, "high")
  const ANYWHERE := Place(Device, Family("f"))

  /** Two runners of one family, with different limits for the same setting. */
  const FAMILY := Snapshot([PlaceInfo(ANYWHERE, ["settings"])], [LOW, HIGH], [], [], None)

  lemma FamilyOffers()
    ensures Offers(FIFTY, FAMILY, ANYWHERE, "fps") == {(Setting("fps"), UpTo(10.0)), (Setting("fps"), UpTo(100.0))}
  {
    assert FAMILY.places[0].place == ANYWHERE && "settings" in FAMILY.places[0].editableKinds;
    assert RunnerOffer(FIFTY, FAMILY, ANYWHERE, "fps", LOW) == [(Setting("fps"), UpTo(10.0))];
    assert RunnerOffer(FIFTY, FAMILY, ANYWHERE, "fps", HIGH) == [(Setting("fps"), UpTo(100.0))];
    RunnerSnoc(FIFTY, FAMILY, ANYWHERE, "fps", [LOW], HIGH);
    RunnerSnoc(FIFTY, FAMILY, ANYWHERE, "fps", [], LOW);
    assert [] + [LOW] == [LOW] && [LOW] + [HIGH] == FAMILY.runners;
  }

  /** A key can resolve to a value that one of its schemas forbids: the value is set for
      both runners although the first accepts at most 10. */
  lemma OneSchemaIsEnough()
    ensures Resolves(FIFTY, FAMILY, ANYWHERE, "fps", Some("50"), Setting("fps"), Some(Int(50)))
    ensures (Setting("fps"), UpTo(10.0)) in Offers(FIFTY, FAMILY, ANYWHERE, "fps") && !Conforms(UpTo(10.0), Int(50))
  {
    FamilyOffers();
    FamilyReadings();
    FamilyPlace();
  }

  lemma FamilyReadings()
    ensures var offers := {(Setting("fps"), UpTo(10.0)), (Setting("fps"), UpTo(100.0))};
            Paths(offers) == {Setting("fps")} && Readings(FIFTY, offers, "50") == {Int(50)}
  {
    assert Scalar(FIFTY, UpTo(10.0), "50") == None && Scalar(FIFTY, UpTo(100.0), "50") == Some(Int(50));
  }

  lemma FamilyPlace()
    ensures !ReadOnly("fps") && Matching(FAMILY.places, ANYWHERE) == 1 && Builtin(FAMILY, ANYWHERE, "fps") == None
  {
    assert FAMILY.places[..0] == [] && Matching([], ANYWHERE) == 0;
  }
}
