/** The gatherer phase: sharing executions and binding their results
    (src/engine/gather.rs:91-155, 213-260). */
module GatherPhase {
  import opened Wrappers
  import opened Canonical
  import Texts

  /** One gather invocation: the variable it fills, the gatherer key, its parameters. */
  datatype Invocation = Invocation(name: string, key: string, params: map<string, Value>)

  datatype Execution = Execution(key: string, params: map<string, Value>, dedup: string)

  ghost function DedupKey(dbg: string -> string, inv: Invocation): string
  {
    inv.key + ":" + Canonicalise(dbg, Map(inv.params))
  }

  ghost predicate SameWork(a: Invocation, b: Invocation)
  {
    a.key == b.key && a.params == b.params
  }

  /** With keys free of colons, two invocations share an execution exactly when gatherer and parameters agree. */
  lemma DedupIsExact(dbg: string -> string, a: Invocation, b: Invocation)
    requires KeyText(dbg) && ':' !in a.key && ':' !in b.key
    requires FloatsOk(Map(a.params)) && FloatsOk(Map(b.params))
    ensures DedupKey(dbg, a) == DedupKey(dbg, b) <==> SameWork(a, b)
  {
    hide KeyText, FloatsOk, Canonicalise;
    var x, y := Canonicalise(dbg, Map(a.params)), Canonicalise(dbg, Map(b.params));
    CanonicaliseIsInjective(dbg, Map(a.params), Map(b.params));
    Texts.SplitAt(a.key, ':', x);
    Texts.SplitAt(b.key, ':', y);
  }

  ghost predicate Good(dbg: string -> string, invs: seq<Invocation>)
  {
    KeyText(dbg) && forall k :: 0 <= k < |invs| ==> ':' !in invs[k].key && FloatsOk(Map(invs[k].params))
  }

  /** `share` sends each invocation to its execution, `origin` each execution to the invocation
      that started it, and no two executions have one dedup key. */
  ghost predicate Shared(invs: seq<Invocation>, dedups: seq<string>, unique: seq<Execution>,
                         origin: seq<nat>, share: seq<nat>)
  {
    && |dedups| == |invs| && |origin| == |unique| && |share| == |invs|
    && (forall u :: 0 <= u < |unique| ==> Started(invs, dedups, unique[u], origin[u]))
    && (forall k :: 0 <= k < |invs| ==> share[k] < |unique| && unique[share[k]].dedup == dedups[k])
    && (forall u, v :: 0 <= u < v < |unique| ==> unique[u].dedup != unique[v].dedup)
  }

  ghost predicate Started(invs: seq<Invocation>, dedups: seq<string>, e: Execution, k: nat)
    requires |dedups| == |invs|
  {
    k < |invs| && e == Execution(invs[k].key, invs[k].params, dedups[k])
  }

  ghost predicate Keyed(dbg: string -> string, invs: seq<Invocation>, dedups: seq<string>)
  {
    |dedups| == |invs| && forall k :: 0 <= k < |invs| ==> dedups[k] == DedupKey(dbg, invs[k])
  }

  /** An execution serves an invocation exactly when it runs that gatherer on those parameters. */
  lemma SharingIsExact(dbg: string -> string, invs: seq<Invocation>, dedups: seq<string>, unique: seq<Execution>,
                       origin: seq<nat>, share: seq<nat>, k: nat, u: nat)
    requires Good(dbg, invs) && Keyed(dbg, invs, dedups) && Shared(invs, dedups, unique, origin, share)
    requires k < |invs| && u < |unique|
    ensures u == share[k] <==> unique[u].key == invs[k].key && unique[u].params == invs[k].params
  {
    hide Good, DedupKey;
    PairIsExact(dbg, invs, origin[u], k);
    assert Started(invs, dedups, unique[u], origin[u]);
    var v := share[k];
    assert u < v || u == v || v < u;
  }

  /** Keep the first invocation of every dedup key. */
  method Share(invs: seq<Invocation>, dedups: seq<string>)
    returns (unique: seq<Execution>, ghost origin: seq<nat>, ghost share: seq<nat>)
    requires |dedups| == |invs|
    ensures Shared(invs, dedups, unique, origin, share)
    ensures |unique| <= |invs|
  {
    unique, origin, share := [], [], [];
    var seen: map<string, nat> := map[];
    for i := 0 to |invs|
      invariant |origin| == |unique| <= i && |share| == i
      invariant forall u :: 0 <= u < |unique| ==> Started(invs, dedups, unique[u], origin[u])
      invariant forall k :: 0 <= k < i ==> share[k] < |unique| && unique[share[k]].dedup == dedups[k]
      invariant forall d :: d in seen ==> seen[d] < |unique| && unique[seen[d]].dedup == d
      invariant forall u :: 0 <= u < |unique| ==> unique[u].dedup in seen && seen[unique[u].dedup] == u
    {
      var d := dedups[i];
      if d !in seen {
        seen := seen[d := |unique|];
        unique := unique + [Execution(invs[i].key, invs[i].params, d)];
        origin := origin + [i];
      }
      share := share + [seen[d]];
    }
  }

  lemma PairIsExact(dbg: string -> string, invs: seq<Invocation>, j: nat, k: nat)
    requires Good(dbg, invs) && j < |invs| && k < |invs|
    ensures DedupKey(dbg, invs[j]) == DedupKey(dbg, invs[k]) <==> SameWork(invs[j], invs[k])
  {
    hide KeyText, FloatsOk, DedupKey;
    DedupIsExact(dbg, invs[j], invs[k]);
  }

  // ------------------------------------------------------------- the variable store

  /** Where a stored value came from; higher wins. */
  datatype Origin = FromGatherer | FromVarFile | FromVar

  function Rank(o: Origin): nat
  {
    match o case FromGatherer => 1 case FromVarFile => 2 case FromVar => 3
  }

  datatype Stored = Stored(origin: Origin, value: Value)

  type Store = map<string, Stored>

  /** The value that was there, unless the incoming one has at least its rank. */
  function Inserted(store: Store, name: string, origin: Origin, v: Value): Store
  {
    if name in store && Rank(store[name].origin) > Rank(origin) then store else store[name := Stored(origin, v)]
  }

  /** Precedence does not depend on the order in which origins are read: values of different origins can
      be inserted either way round. */
  lemma OriginsCommute(store: Store, m: string, o: Origin, v: Value, n: string, p: Origin, w: Value)
    requires o != p || m != n
    ensures Inserted(Inserted(store, m, o, v), n, p, w) == Inserted(Inserted(store, n, p, w), m, o, v)
  {
    var x, y := Stored(o, v), Stored(p, w);
    if m != n {
      assert store[m := x][n := y] == store[n := y][m := x];
    } else {
      assert store[m := x][m := y] == store[m := y] && store[m := y][m := x] == store[m := x];
    }
  }

  /** A `--var` or `--var-file` value is there for the name. */
  predicate Overridden(store: Store, name: string)
  {
    name in store && store[name].origin != FromGatherer
  }

  predicate SameAt(a: Store, b: Store, name: string)
  {
    (name in a <==> name in b) && (name in a ==> a[name] == b[name])
  }

  /** What becomes of a variable: an override stays, a result replaces anything else, a failed
      execution changes nothing. */
  ghost predicate Binds(before: Store, after: Store, name: string, result: Option<Value>)
  {
    if result.None? || Overridden(before, name) then SameAt(before, after, name)
    else name in after && after[name] == Stored(FromGatherer, result.value)
  }

  /** A variable holds the result of its execution exactly when no override was there. */
  lemma HoldsResultIff(before: Store, after: Store, name: string, result: Option<Value>)
    requires result.Some? && Binds(before, after, name, result)
    ensures name in after && (after[name] == Stored(FromGatherer, result.value) <==> !Overridden(before, name))
    ensures Overridden(before, name) ==> after[name] == before[name]
  {
  }

  /** A result that raises no diagnostic: it is there, and keeps to the gatherer's declared symbols. */
  predicate Accepted(violates: (string, Value) -> bool, key: string, result: Option<Value>)
  {
    result.Some? && !violates(key, result.value)
  }

  /** The form a result is bound in: the gatherer's declared symbols become symbols. */
  function Bindable(convert: (string, Value) -> Value, key: string, result: Option<Value>): Option<Value>
  {
    if result.None? then None else Some(convert(key, result.value))
  }

  /** One of the first `n` invocations fills the variable. */
  ghost predicate NamedBefore(invs: seq<Invocation>, n: nat, name: string)
    requires n <= |invs|
  {
    exists k :: 0 <= k < n && invs[k].name == name
  }

  /** Bind each variable to the result of the execution it shares, into a store that already holds the
      overrides; `results` are whatever the executions produced, one each. A value outside the declared
      symbols is bound and reported, overridden or not. Everything else in the store stays. */
  method Bind(violates: (string, Value) -> bool, convert: (string, Value) -> Value, given: Store, invs: seq<Invocation>,
              dedups: seq<string>, unique: seq<Execution>, results: seq<Option<Value>>, ghost origin: seq<nat>,
              ghost share: seq<nat>)
    returns (store: Store, ok: bool)
    requires Shared(invs, dedups, unique, origin, share) && |results| == |unique|
    requires forall i, j :: 0 <= i < j < |invs| ==> invs[i].name != invs[j].name
    ensures ok <==> forall k :: 0 <= k < |invs| ==> Accepted(violates, invs[k].key, results[share[k]])
    ensures ok ==> forall u :: 0 <= u < |results| ==> results[u].Some?
    ensures forall k :: 0 <= k < |invs| ==>
              Binds(given, store, invs[k].name, Bindable(convert, invs[k].key, results[share[k]]))
    ensures forall n :: !NamedBefore(invs, |invs|, n) ==> SameAt(given, store, n)
  {
    hide Started;
    var byDedup := Index(unique, results);
    store, ok := given, true;
    for i := 0 to |invs|
      invariant forall k :: 0 <= k < i ==>
                  Binds(given, store, invs[k].name, Bindable(convert, invs[k].key, results[share[k]]))
      invariant forall n :: !NamedBefore(invs, i, n) ==> SameAt(given, store, n)
      invariant ok <==> forall k :: 0 <= k < i ==> Accepted(violates, invs[k].key, results[share[k]])
    {
      assert unique[share[i]].dedup == dedups[i];
      assert !NamedBefore(invs, i, invs[i].name);
      ghost var before := store;
      match byDedup[dedups[i]] {
        case Some(v) =>
          if violates(invs[i].key, v) {
            ok := false;
          }
          store := Inserted(store, invs[i].name, FromGatherer, convert(invs[i].key, v));
        case None => ok := false;
      }
      forall n | !NamedBefore(invs, i + 1, n) ensures SameAt(given, store, n) {
        assert invs[i].name != n && !NamedBefore(invs, i, n) && SameAt(given, before, n);
      }
      forall k | 0 <= k < i ensures SameAt(before, store, invs[k].name) {
        assert invs[k].name != invs[i].name;
      }
    }
    forall u | ok && 0 <= u < |results| ensures results[u].Some? {
      OwnExecution(invs, dedups, unique, origin, share, u);
    }
  }

  lemma OwnExecution(invs: seq<Invocation>, dedups: seq<string>, unique: seq<Execution>,
                     origin: seq<nat>, share: seq<nat>, u: nat)
    requires Shared(invs, dedups, unique, origin, share) && u < |unique|
    ensures origin[u] < |invs| && share[origin[u]] == u
  {
  }

  method Index(unique: seq<Execution>, results: seq<Option<Value>>) returns (byDedup: map<string, Option<Value>>)
    requires |results| == |unique|
    requires forall u, v :: 0 <= u < v < |unique| ==> unique[u].dedup != unique[v].dedup
    ensures forall u :: 0 <= u < |unique| ==> unique[u].dedup in byDedup && byDedup[unique[u].dedup] == results[u]
  {
    byDedup := map[];
    for u := 0 to |unique|
      invariant forall v :: 0 <= v < u ==> unique[v].dedup in byDedup && byDedup[unique[v].dedup] == results[v]
    {
      byDedup := byDedup[unique[u].dedup := results[u]];
    }
  }

  /** Every variable ends up with the result of an execution of its own gatherer on its own parameters. */
  lemma VariablesGetTheirOwn(dbg: string -> string, invs: seq<Invocation>, dedups: seq<string>, unique: seq<Execution>,
                             origin: seq<nat>, share: seq<nat>, k: nat)
    requires Good(dbg, invs) && Keyed(dbg, invs, dedups) && Shared(invs, dedups, unique, origin, share) && k < |invs|
    ensures unique[share[k]].key == invs[k].key && unique[share[k]].params == invs[k].params
    ensures forall j :: 0 <= j < |invs| ==> (share[j] == share[k] <==> SameWork(invs[j], invs[k]))
  {
    SharingIsExact(dbg, invs, dedups, unique, origin, share, k, share[k]);
    forall j | 0 <= j < |invs| ensures share[j] == share[k] <==> SameWork(invs[j], invs[k]) {
      SharingIsExact(dbg, invs, dedups, unique, origin, share, j, share[k]);
    }
  }

  // ------------------------------------------------------------ parameter defaults

  datatype ParamDecl = ParamDecl(name: string, required: bool, default: Option<Value>, accepts: Value -> bool)

  /** The default of the first declaration of a name that has one. */
  function DefaultFor(decls: seq<ParamDecl>, name: string): Option<Value>
  {
    if decls == [] then None
    else if decls[0].name == name && decls[0].default.Some? then decls[0].default
    else DefaultFor(decls[1..], name)
  }

  lemma {:induction false} DefaultSnoc(decls: seq<ParamDecl>, i: nat, name: string)
    requires i < |decls|
    ensures var before := DefaultFor(decls[..i], name);
            DefaultFor(decls[..i + 1], name) ==
            if before.Some? then before else if decls[i].name == name then decls[i].default else None
  {
    if i > 0 {
      DefaultSnoc(decls[1..], i - 1, name);
      assert decls[1..][..i] == decls[..i + 1][1..] && decls[1..][..i - 1] == decls[..i][1..];
    } else {
      assert decls[..1] == [decls[0]];
    }
  }

  /** What a name holds when the i-th declaration is reached: a given value, or an earlier default. */
  function ValueBefore(given: map<string, Value>, decls: seq<ParamDecl>, i: nat): Option<Value>
    requires i < |decls|
  {
    var name := decls[i].name;
    if name in given then Some(given[name]) else DefaultFor(decls[..i], name)
  }

  predicate Acceptable(given: map<string, Value>, decls: seq<ParamDecl>, i: nat)
    requires i < |decls|
  {
    var v := ValueBefore(given, decls, i);
    if v.Some? then decls[i].accepts(v.value) else decls[i].default.Some? || !decls[i].required
  }

  /** Fill in declared defaults. Given values are never changed, nothing undeclared appears, and on
      success every required parameter is there. */
  method ApplyDefaults(given: map<string, Value>, decls: seq<ParamDecl>) returns (params: map<string, Value>, ok: bool)
    ensures forall k :: k in given ==> k in params && params[k] == given[k]
    ensures forall k :: k !in given ==>
              if DefaultFor(decls, k).Some? then k in params && params[k] == DefaultFor(decls, k).value
              else k !in params
    ensures ok <==> forall i :: 0 <= i < |decls| ==> Acceptable(given, decls, i)
    ensures ok ==> forall i :: 0 <= i < |decls| && decls[i].required ==> decls[i].name in params
  {
    params, ok := given, true;
    for i := 0 to |decls|
      invariant forall k :: k in given ==> k in params && params[k] == given[k]
      invariant forall k :: k !in given ==>
                  if DefaultFor(decls[..i], k).Some? then k in params && params[k] == DefaultFor(decls[..i], k).value
                  else k !in params
      invariant ok ==> forall j :: 0 <= j < i && decls[j].required ==> decls[j].name in params
      invariant ok <==> forall j :: 0 <= j < i ==> Acceptable(given, decls, j)
    {
      var d := decls[i];
      ghost var before := ValueBefore(given, decls, i);
      assert before == if d.name in params then Some(params[d.name]) else None;
      assert Acceptable(given, decls, i) <==>
             if d.name in params then d.accepts(params[d.name]) else d.default.Some? || !d.required;
      forall k ensures DefaultFor(decls[..i + 1], k) ==
                       if DefaultFor(decls[..i], k).Some? then DefaultFor(decls[..i], k)
                       else if d.name == k then d.default else None {
        DefaultSnoc(decls, i, k);
      }
      if d.name in params {
        if !d.accepts(params[d.name]) {
          ok := false;
        }
      } else if d.default.Some? {
        params := params[d.name := d.default.value];
      } else if d.required {
        ok := false;
      }
    }
    assert decls[..|decls|] == decls;
  }
}
