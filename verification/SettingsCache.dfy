/**
 Versioned settings and the cache in front of them (backend/app/settings/resolver.py).

 The registry is a parameter: for every key its scopes, its default and the function that validates and coerces
 a value. Rows are kept under the key the store's dictionary uses.
 */
module SettingsCache {
  import opened Basics

  datatype Scope = Device | Location | Org

  /** A JSON value; numbers with and without a fraction part are told apart, as they are in Python. */
  datatype Value = Null | Bool(b: bool) | Int(i: int) | Float(r: real) | Text(s: string)

  datatype SettingSpec = SettingSpec(scopes: set<Scope>, default: Value, coerce: Value -> Option<Value>)

  type Schema = map<string, SettingSpec>

  datatype RowKey = RowKey(key: string, scope: Scope, scopeId: Option<Uuid>)

  datatype SettingValue = SettingValue(at: RowKey, value: Value, version: nat)

  type Rows = map<RowKey, SettingValue>

  datatype Context = Context(locationId: Option<Uuid>, deviceId: Option<Uuid>)

  datatype Source = From(scope: Scope, scopeId: Option<Uuid>) | Default

  datatype Resolved = Resolved(key: string, value: Value, source: Source, version: nat)

  datatype SettingError = UnknownKey | ScopeNotAllowed | ScopeIdMismatch | BadValue

  // ---------------------------------------------------------------------------------------------
  // Pure resolution

  function ValidateForScope(schema: Schema, at: RowKey, value: Value): Result<Value, SettingError> {
    if at.key !in schema then Err(UnknownKey)
    else if at.scope !in schema[at.key].scopes then Err(ScopeNotAllowed)
    else if at.scope.Org? && at.scopeId.Some? then Err(ScopeIdMismatch)
    else if !at.scope.Org? && at.scopeId.None? then Err(ScopeIdMismatch)
    else
      var coerced := schema[at.key].coerce(value);
      if coerced.None? then Err(BadValue) else Ok(coerced.value)
  }

  function ScopeIdFor(scope: Scope, context: Context): Option<Uuid> {
    match scope
    case Device => context.deviceId
    case Location => context.locationId
    case Org => None
  }

  const PRECEDENCE := [Device, Location, Org]

  predicate RowIsValid(schema: Schema, row: SettingValue) {
    ValidateForScope(schema, row.at, row.value).Ok?
  }

  function FirstHit(schema: Schema, key: string, rows: Rows, context: Context, scopes: seq<Scope>)
    : (hit: Option<RowKey>)
    requires key in schema
    ensures hit.Some? ==> hit.value in rows && hit.value.key == key && hit.value.scope in scopes
  {
    if scopes == [] then None
    else
      var scope, scopeId := scopes[0], ScopeIdFor(scopes[0], context);
      var at := RowKey(key, scope, scopeId);
      if scope !in schema[key].scopes || (!scope.Org? && scopeId.None?) || at !in rows
      then FirstHit(schema, key, rows, context, scopes[1..])
      else Some(at)
  }

  function ResolveSetting(schema: Schema, key: string, rows: Rows, context: Context, version: nat)
    : Result<Resolved, SettingError>
  {
    if key !in schema then Err(UnknownKey)
    else if exists at | at in rows :: rows[at].at.key == key && !RowIsValid(schema, rows[at]) then Err(BadValue)
    else
      var hit := FirstHit(schema, key, rows, context, PRECEDENCE);
      if hit.None? then Ok(Resolved(key, schema[key].default, Default, version))
      else
        var row := rows[hit.value];
        var coerced := schema[key].coerce(row.value);
        if coerced.None? then Err(BadValue)
        else Ok(Resolved(key, coerced.value, From(row.at.scope, row.at.scopeId), Max(version, row.version)))
  }

  // ---------------------------------------------------------------------------------------------
  // The store and the cache

  datatype Store = Store(rows: Rows, version: nat)

  datatype Cache = Cache(cachedVersion: nat, rows: Rows)

  function Upserted(schema: Schema, store: Store, at: RowKey, value: Value): Result<Store, SettingError> {
    match ValidateForScope(schema, at, value)
    case Err(e) => Err(e)
    case Ok(coerced) =>
      var v := store.version + 1;
      Ok(Store(store.rows[at := SettingValue(at, coerced, v)], v))
  }

  function Invalidated(cache: Cache, version: nat): Cache {
    if version > cache.cachedVersion then cache.(cachedVersion := 0) else cache
  }

  function Refreshed(cache: Cache, store: Store): Cache {
    if store.version == cache.cachedVersion then cache else Cache(store.version, store.rows)
  }

  class InMemorySettingsStore {
    var values: Rows
    var version: nat

    function State(): Store
      reads this
    {
      Store(values, version)
    }

    constructor ()
      ensures State() == Store(map[], 1)
    {
      values, version := map[], 1;
    }

    /** A rejected value leaves the store, version included, as it was. */
    method UpsertValue(schema: Schema, at: RowKey, value: Value) returns (r: Result<SettingValue, SettingError>)
      modifies this
      ensures match old(Upserted(schema, State(), at, value)) {
                case Err(e) => r == Err(e) && State() == old(State())
                case Ok(next) => State() == next && r == Ok(next.rows[at])
              }
    {
      var validated := ValidateForScope(schema, at, value);
      if validated.Err? {
        return Err(validated.error);
      }
      version := version + 1;
      var setting := SettingValue(at, validated.value, version);
      values := values[at := setting];
      return Ok(setting);
    }
  }

  class CachedSettingsResolver {
    const store: InMemorySettingsStore
    var cachedVersion: nat
    var values: Rows

    function State(): Cache
      reads this
    {
      Cache(cachedVersion, values)
    }

    constructor (store: InMemorySettingsStore)
      ensures this.store == store && State() == Cache(0, map[])
    {
      this.store := store;
      cachedVersion, values := 0, map[];
    }

    method Invalidate(version: nat)
      modifies this
      ensures State() == Invalidated(old(State()), version)
    {
      if version > cachedVersion {
        cachedVersion := 0;
      }
    }

    method RefreshIfStale()
      modifies this
      ensures State() == Refreshed(old(State()), store.State())
    {
      var storeVersion := store.version;
      if storeVersion == cachedVersion {
        return;
      }
      values := store.values;
      cachedVersion := storeVersion;
    }

    /** The cache answers exactly as the store's present rows would. */
    method Resolve(schema: Schema, key: string, context: Context) returns (r: Result<Resolved, SettingError>)
      requires Coherent(State(), store.State())
      modifies this
      ensures Coherent(State(), store.State())
      ensures r == ResolveSetting(schema, key, store.values, context, store.version)
    {
      RefreshIfStale();
      r := ResolveSetting(schema, key, values, context, cachedVersion);
    }
  }

  /** A cache that carries the store's version carries the store's rows. */
  predicate Coherent(cache: Cache, store: Store) {
    && 1 <= store.version
    && cache.cachedVersion <= store.version
    && (cache.cachedVersion == store.version ==> cache.rows == store.rows)
  }

  // ---------------------------------------------------------------------------------------------
  // Runs: upserts, reads and invalidations in any order, invalidations carrying any version at all

  datatype System = System(store: Store, caches: seq<Cache>)

  datatype Step =
    | Upsert(at: RowKey, value: Value)
    | Read(i: nat)
    | Invalidate(i: nat, version: nat)

  function Start(n: nat): System {
    System(Store(map[], 1), seq(n, _ => Cache(0, map[])))
  }

  function Next(schema: Schema, s: System, step: Step): System {
    match step
    case Upsert(at, value) =>
      var r := Upserted(schema, s.store, at, value);
      if r.Ok? then s.(store := r.value) else s
    case Read(i) =>
      if i < |s.caches| then s.(caches := s.caches[i := Refreshed(s.caches[i], s.store)]) else s
    case Invalidate(i, version) =>
      if i < |s.caches| then s.(caches := s.caches[i := Invalidated(s.caches[i], version)]) else s
  }

  function Run(schema: Schema, n: nat, steps: seq<Step>): System {
    if steps == [] then Start(n)
    else Next(schema, Run(schema, n, steps[..|steps| - 1]), steps[|steps| - 1])
  }

  /** Coercing twice is coercing once; see `RegistryIsStable`. */
  ghost predicate Stable(schema: Schema) {
    forall key, v | key in schema && schema[key].coerce(v).Some? ::
      schema[key].coerce(schema[key].coerce(v).value) == schema[key].coerce(v)
  }

  predicate RowsAreSound(schema: Schema, store: Store) {
    forall at | at in store.rows ::
      && store.rows[at].at == at
      && store.rows[at].version <= store.version
      && ValidateForScope(schema, at, store.rows[at].value) == Ok(store.rows[at].value)
  }

  lemma UpsertKeepsRowsSound(schema: Schema, store: Store, at: RowKey, value: Value)
    requires Stable(schema) && RowsAreSound(schema, store)
    ensures var r := Upserted(schema, store, at, value); r.Ok? ==> RowsAreSound(schema, r.value)
  {
  }

  lemma {:induction false} RunsStayCoherent(schema: Schema, n: nat, steps: seq<Step>)
    requires Stable(schema)
    ensures var s := Run(schema, n, steps);
            && RowsAreSound(schema, s.store) && |s.caches| == n
            && forall i | 0 <= i < n :: Coherent(s.caches[i], s.store)
  {
    if steps != [] {
      RunsStayCoherent(schema, n, steps[..|steps| - 1]);
      var s := Run(schema, n, steps[..|steps| - 1]);
      match steps[|steps| - 1] {
        case Upsert(at, value) => UpsertKeepsRowsSound(schema, s.store, at, value);
        case Read(_) =>
        case Invalidate(_, _) =>
      }
    }
  }

  // ---------------------------------------------------------------------------------------------
  // What the store holds

  /** The upsert is of a registered key, at one of its scopes with an id exactly where one belongs, and coercible. */
  predicate IsAccepted(schema: Schema, step: Step) {
    && step.Upsert? && step.at.key in schema && step.at.scope in schema[step.at.key].scopes
    && (step.at.scope == Org <==> step.at.scopeId == None)
    && schema[step.at.key].coerce(step.value).Some?
  }

  /** How many of the steps were accepted upserts. */
  function Accepted(schema: Schema, steps: seq<Step>): nat {
    if steps == [] then 0
    else Accepted(schema, steps[..|steps| - 1]) + if IsAccepted(schema, steps[|steps| - 1]) then 1 else 0
  }

  predicate IsLastWrite(schema: Schema, steps: seq<Step>, at: RowKey, k: nat) {
    && k < |steps| && IsAccepted(schema, steps[k]) && steps[k].at == at
    && forall i | k < i < |steps| :: !(IsAccepted(schema, steps[i]) && steps[i].at == at)
  }

  lemma UpsertMeans(schema: Schema, store: Store, step: Step)
    requires step.Upsert?
    ensures var r := Upserted(schema, store, step.at, step.value);
            && (r.Ok? <==> IsAccepted(schema, step))
            && (r == Err(UnknownKey) <==> step.at.key !in schema)
            && (r == Err(ScopeNotAllowed) <==>
                step.at.key in schema && step.at.scope !in schema[step.at.key].scopes)
            && (r == Err(BadValue) ==> schema[step.at.key].coerce(step.value).None?)
            && (r.Ok? ==>
                  && r.value.version == store.version + 1
                  && r.value.rows.Keys == store.rows.Keys + {step.at}
                  && (forall k | k in store.rows && k != step.at :: r.value.rows[k] == store.rows[k])
                  && Some(r.value.rows[step.at].value) == schema[step.at.key].coerce(step.value)
                  && r.value.rows[step.at].version == r.value.version)
  {
  }

  lemma LastWriteGrows(schema: Schema, steps: seq<Step>, step: Step, at: RowKey, k: nat)
    ensures IsLastWrite(schema, steps + [step], at, k) <==>
            if IsAccepted(schema, step) && step.at == at then k == |steps| else IsLastWrite(schema, steps, at, k)
  {
    assert (steps + [step])[|steps|] == step;
    assert forall i | 0 <= i < |steps| :: (steps + [step])[i] == steps[i];
  }

  /** After any run the store holds exactly the last accepted value of each row, and its version counts the accepted. */
  lemma {:induction false} LastWriteWins(schema: Schema, n: nat, steps: seq<Step>, at: RowKey, k: nat)
    ensures var store := Run(schema, n, steps).store;
            && store.version == 1 + Accepted(schema, steps)
            && (at in store.rows <==> exists j: nat :: IsLastWrite(schema, steps, at, j))
            && (IsLastWrite(schema, steps, at, k) ==>
                  && at in store.rows
                  && Some(store.rows[at].value) == schema[at.key].coerce(steps[k].value)
                  && store.rows[at].version == 1 + Accepted(schema, steps[..k + 1]))
  {
    if steps != [] {
      var init, step := steps[..|steps| - 1], steps[|steps| - 1];
      assert steps == init + [step];
      LastWriteWins(schema, n, init, at, k);
      if step.Upsert? {
        UpsertMeans(schema, Run(schema, n, init).store, step);
      }
      forall j: nat
        ensures IsLastWrite(schema, steps, at, j) <==>
                if IsAccepted(schema, step) && step.at == at then j == |init| else IsLastWrite(schema, init, at, j)
      {
        LastWriteGrows(schema, init, step, at, j);
      }
      if j: nat :| IsLastWrite(schema, init, at, j) {
        assert (IsAccepted(schema, step) && step.at == at) || IsLastWrite(schema, steps, at, j);
      }
      assert IsAccepted(schema, step) && step.at == at ==> IsLastWrite(schema, steps, at, |init|);
      assert k < |init| ==> init[..k + 1] == steps[..k + 1];
      assert steps[..|init| + 1] == steps;
    }
  }

  /** A cache told of a version above its own holds the store's rows after the next read, whatever it held. */
  lemma InvalidationReloads(cache: Cache, store: Store, version: nat)
    requires version > cache.cachedVersion && store.version >= 1
    ensures Refreshed(Invalidated(cache, version), store) == Cache(store.version, store.rows)
  {
  }

  // ---------------------------------------------------------------------------------------------
  // What a read returns

  function Rank(scope: Scope): nat {
    match scope
    case Device => 2
    case Location => 1
    case Org => 0
  }

  /** A row that may supply `key` in `context`. */
  predicate Applies(schema: Schema, rows: Rows, at: RowKey, key: string, context: Context) {
    && at in rows && at.key == key && key in schema
    && at.scope in schema[key].scopes
    && at.scopeId == ScopeIdFor(at.scope, context)
    && (at.scope.Org? || at.scopeId.Some?)
  }

  /** `r` is the most specific applicable row, or the default when none applies. */
  ghost predicate MostSpecific(schema: Schema, rows: Rows, key: string, context: Context, r: Resolved)
    requires key in schema
  {
    match r.source
    case Default =>
      && r.value == schema[key].default
      && forall at :: !Applies(schema, rows, at, key, context)
    case From(scope, scopeId) =>
      var winner := RowKey(key, scope, scopeId);
      && Applies(schema, rows, winner, key, context)
      && r.value == rows[winner].value
      && forall at | Applies(schema, rows, at, key, context) && at != winner :: Rank(at.scope) < Rank(scope)
  }

  lemma {:induction false} FirstHitIsMostSpecific(
    schema: Schema, key: string, rows: Rows, context: Context, scopes: seq<Scope>)
    requires key in schema
    requires forall i, j | 0 <= i < j < |scopes| :: Rank(scopes[i]) > Rank(scopes[j])
    ensures var hit := FirstHit(schema, key, rows, context, scopes);
            && (hit.Some? ==> Applies(schema, rows, hit.value, key, context))
            && forall at | Applies(schema, rows, at, key, context) && at.scope in scopes ::
                 hit.Some? && (at == hit.value || Rank(at.scope) < Rank(hit.value.scope))
  {
    if scopes != [] {
      FirstHitIsMostSpecific(schema, key, rows, context, scopes[1..]);
      assert scopes == [scopes[0]] + scopes[1..];
      forall at | Applies(schema, rows, at, key, context) && at.scope == scopes[0]
        ensures FirstHit(schema, key, rows, context, scopes) == Some(at)
      {
        assert at == RowKey(key, scopes[0], ScopeIdFor(scopes[0], context));
      }
    }
  }

  /**
   After any run, a read through any cache fails only for a key the registry does not know; otherwise it returns
   the most specific row the store holds now, as written, and the store's present version.
   */
  lemma ReadsAreCurrent(schema: Schema, n: nat, steps: seq<Step>, i: nat, key: string, context: Context)
    requires Stable(schema) && i < n
    ensures var s := Run(schema, n, steps);
            |s.caches| == n &&
            var c := Refreshed(s.caches[i], s.store);
            var r := ResolveSetting(schema, key, c.rows, context, c.cachedVersion);
            && (r.Ok? <==> key in schema)
            && (r.Ok? ==>
                  r.value.version == s.store.version && MostSpecific(schema, s.store.rows, key, context, r.value))
  {
    RunsStayCoherent(schema, n, steps);
    var s := Run(schema, n, steps);
    if key in schema {
      FirstHitIsMostSpecific(schema, key, s.store.rows, context, PRECEDENCE);
      assert PRECEDENCE[0] == Device && PRECEDENCE[1] == Location && PRECEDENCE[2] == Org;
    }
  }

  // ---------------------------------------------------------------------------------------------
  // The types of the registry (backend/app/settings/registry.py)

  datatype SettingType = BoolType | EnumType(options: set<string>) | FloatType | IntType | StrType | UuidType

  datatype Registered = Registered(
    scopes: set<Scope>,
    default: Value,
    settingType: SettingType,
    low: Option<real>,
    high: Option<real>,
    maxLength: Option<nat>,
    isColour: bool)

  /** Python's parsers of numbers and UUIDs, the latter giving the canonical text. */
  datatype Parsers = Parsers(
    toFloat: string -> Option<real>,
    toInt: string -> Option<int>,
    toHexInt: string -> Option<int>,
    toUuid: string -> Option<string>)

  /** The canonical text of a UUID is its own canonical text. */
  ghost predicate UuidsAreCanonical(ps: Parsers) {
    forall s | ps.toUuid(s).Some? :: ps.toUuid(ps.toUuid(s).value) == ps.toUuid(s)
  }

  function CoerceValue(t: SettingType, v: Value, ps: Parsers): Option<Value> {
    match t
    case BoolType => if v.Bool? then Some(v) else None
    case EnumType(options) => if v.Text? && v.s in options then Some(v) else None
    case StrType => if v.Text? then Some(v) else None
    case FloatType =>
      if v.Float? then Some(v)
      else if v.Int? then Some(Float(v.i as real))
      else if v.Text? && ps.toFloat(v.s).Some? then Some(Float(ps.toFloat(v.s).value))
      else None
    case IntType =>
      if v.Int? then Some(v)
      else if v.Float? && v.r.Floor as real == v.r then Some(Int(v.r.Floor))
      else if v.Text? && ps.toInt(v.s).Some? then Some(Int(ps.toInt(v.s).value))
      else None
    case UuidType =>
      if v.Null? then Some(Null)
      else if v.Text? && ps.toUuid(v.s).Some? then Some(Text(ps.toUuid(v.s).value))
      else None
  }

  predicate IsInRange(g: Registered, v: Value) {
    && (v.Int? ==> (g.low.Some? ==> v.i as real >= g.low.value) && (g.high.Some? ==> v.i as real <= g.high.value))
    && (v.Float? ==> (g.low.Some? ==> v.r >= g.low.value) && (g.high.Some? ==> v.r <= g.high.value))
    && (v.Text? && g.maxLength.Some? ==> |v.s| <= g.maxLength.value)
  }

  predicate HasFormat(g: Registered, v: Value, ps: Parsers) {
    g.isColour ==> v.Text? && |v.s| == 7 && v.s[0] == '#' && ps.toHexInt(v.s[1..]).Some?
  }

  /** Coerce, then check range and format of what came out. */
  function ValidateSetting(g: Registered, v: Value, ps: Parsers): Option<Value> {
    var coerced := CoerceValue(g.settingType, v, ps);
    if coerced.Some? && IsInRange(g, coerced.value) && HasFormat(g, coerced.value, ps) then coerced else None
  }

  function SchemaOf(registry: map<string, Registered>, ps: Parsers): Schema {
    map key | key in registry ::
      SettingSpec(registry[key].scopes, registry[key].default, v => ValidateSetting(registry[key], v, ps))
  }

  lemma CoercingTwice(t: SettingType, v: Value, ps: Parsers)
    requires UuidsAreCanonical(ps) && CoerceValue(t, v, ps).Some?
    ensures CoerceValue(t, CoerceValue(t, v, ps).value, ps) == CoerceValue(t, v, ps)
  {
  }

  /** Whatever the registry's keys, types, ranges and formats, its validation is stable. */
  lemma RegistryIsStable(registry: map<string, Registered>, ps: Parsers)
    requires UuidsAreCanonical(ps)
    ensures Stable(SchemaOf(registry, ps))
  {
    forall key, v | key in registry && ValidateSetting(registry[key], v, ps).Some?
      ensures ValidateSetting(registry[key], ValidateSetting(registry[key], v, ps).value, ps) ==
              ValidateSetting(registry[key], v, ps)
    {
      CoercingTwice(registry[key].settingType, v, ps);
    }
  }

  /** A value of the type itself is kept, a number of the other kind converted exactly, and a text parsed. */
  lemma CoercionMeans(t: SettingType, v: Value, ps: Parsers)
    ensures var r := CoerceValue(t, v, ps);
            && (HasType(t, v) && (t.UuidType? ==> v.Null?) ==> r == Some(v))
            && (!HasType(t, v) && r.Some? ==> t.FloatType? || t.IntType?)
            && (t.FloatType? && v.Int? ==> r.Some? && r.value.Float? && r.value.r == v.i as real)
            && (t.IntType? && v.Float? ==>
                  && (r.Some? <==> exists i: int :: IsWhole(i, v.r))
                  && (r.Some? ==> r.value.Int? && r.value.i as real == v.r))
            && (t.FloatType? && v.Text? ==>
                  (r.Some? <==> ps.toFloat(v.s).Some?) && (r.Some? ==> r == Some(Float(ps.toFloat(v.s).value))))
            && (t.IntType? && v.Text? ==>
                  (r.Some? <==> ps.toInt(v.s).Some?) && (r.Some? ==> r == Some(Int(ps.toInt(v.s).value))))
            && (t.UuidType? && v.Text? ==>
                  (r.Some? <==> ps.toUuid(v.s).Some?) && (r.Some? ==> r == Some(Text(ps.toUuid(v.s).value))))
            && (v.Bool? || v.Null? ==> (r.Some? <==> HasType(t, v)))
  {
    if t.IntType? && v.Float? {
      assert v.r.Floor as real == v.r ==> IsWhole(v.r.Floor, v.r);
    }
  }

  predicate IsWhole(i: int, r: real) {
    i as real == r
  }

  predicate HasType(t: SettingType, v: Value) {
    match t
    case BoolType => v.Bool?
    case EnumType(options) => v.Text? && v.s in options
    case FloatType => v.Float?
    case IntType => v.Int?
    case StrType => v.Text?
    case UuidType => v.Null? || v.Text?
  }

  /** A value is accepted exactly if it can be coerced and what comes out is within bounds and well formed. */
  lemma AcceptedValuesFit(g: Registered, v: Value, ps: Parsers)
    ensures var c, r := CoerceValue(g.settingType, v, ps), ValidateSetting(g, v, ps);
            && (r.Some? ==> r == c && HasType(g.settingType, r.value))
            && (r.Some? <==>
                && c.Some?
                && (c.value.Int? ==> AtLeast(g.low, c.value.i as real) && AtMost(g.high, c.value.i as real))
                && (c.value.Float? ==> AtLeast(g.low, c.value.r) && AtMost(g.high, c.value.r))
                && (c.value.Text? && g.maxLength.Some? ==> |c.value.s| <= g.maxLength.value)
                && (g.isColour ==> c.value.Text? && |c.value.s| == 7 && c.value.s[0] == '#'
                                   && ps.toHexInt(c.value.s[1..]).Some?))
  {
  }

  predicate AtLeast(low: Option<real>, x: real) {
    low.Some? ==> low.value <= x
  }

  predicate AtMost(high: Option<real>, x: real) {
    high.Some? ==> x <= high.value
  }
}
