/** `ProviderRouter` (backend/app/v2/routing.py): which credential each attempt of a call uses, and how
    selection counts spread the load over calls. */
module Routing {
  import opened Collections
  import opened Domain
  import opened Ordering

  datatype ErrorClass = Auth | RateLimit | Transient | Capability | Context | Input | Internal

  datatype Failure = Failure(errorClass: ErrorClass, retryAfter: Option<nat>)

  /** How one attempt ends: the provider's answer and the response validator's verdict on it. */
  datatype Answer = Success | Fails(failure: Failure)

  /** Credentials are only stored with a weight of at least one. */
  type Weight = w: nat | w >= 1 witness 1

  datatype Credential = Credential(id: string, provider: string, weight: Weight, active: bool)

  datatype Health = Health(
    selectionCount: nat, failureCount: nat, disabled: bool, cooldownUntil: Option<int>, lastError: Option<ErrorClass>)

  type HealthRows = map<string, Health>

  const FRESH := Health(0, 0, false, None, None)

  /** `credential_health`: a missing row reads as a fresh one. */
  function HealthOf(rows: HealthRows, id: string): Health {
    if id in rows then rows[id] else FRESH
  }

  predicate Retryable(errorClass: ErrorClass) {
    errorClass.Auth? || errorClass.RateLimit? || errorClass.Transient?
  }

  // ---------------------------------------------------------------- eligible credentials

  /** `_active` */
  predicate CooledDown(until: Option<int>, now: int) {
    until.None? || until.value <= now
  }

  predicate Eligible(c: Credential, rows: HealthRows, provider: string, now: int) {
    var health := HealthOf(rows, c.id);
    c.active && c.provider == provider && !health.disabled && CooledDown(health.cooldownUntil, now)
  }

  function Load(c: Credential, rows: HealthRows): real {
    HealthOf(rows, c.id).selectionCount as real / c.weight as real
  }

  /** The key `(selection_count / weight, id)`. */
  predicate LoadLe(a: Credential, b: Credential, rows: HealthRows) {
    Load(a, rows) < Load(b, rows) || (Load(a, rows) == Load(b, rows) && TextLe(a.id, b.id))
  }

  function ByLoad(rows: HealthRows): (Credential, Credential) -> bool {
    (a, b) => LoadLe(a, b, rows)
  }

  lemma ByLoadIsPreorder(rows: HealthRows)
    ensures Preorder(ByLoad(rows))
  {
    forall a, b ensures LoadLe(a, b, rows) || LoadLe(b, a, rows) {
      TextLeTotal(a.id, b.id);
    }
    forall a, b, c | LoadLe(a, b, rows) && LoadLe(b, c, rows) ensures LoadLe(a, c, rows) {
      if TextLe(a.id, b.id) && TextLe(b.id, c.id) {
        TextLeTransitive(a.id, b.id, c.id);
      }
    }
  }

  function EligibleInOrder(credentials: seq<Credential>, rows: HealthRows, provider: string, now: int)
    : seq<Credential>
  {
    Sort(Only(credentials, rows, provider, now), ByLoad(rows))
  }

  /** `_eligible_credentials`: exactly the eligible ones, least loaded first. */
  method EligibleCredentials(credentials: seq<Credential>, rows: HealthRows, provider: string, now: int)
    returns (chosen: seq<Credential>)
    ensures chosen == EligibleInOrder(credentials, rows, provider, now)
    ensures multiset(chosen) == multiset(Only(credentials, rows, provider, now))
    ensures forall i, j :: 0 <= i < j < |chosen| ==> LoadLe(chosen[i], chosen[j], rows)
    ensures forall c :: c in chosen <==> c in credentials && Eligible(c, rows, provider, now)
  {
    var eligible: seq<Credential> := [];
    for i := 0 to |credentials|
      invariant eligible == Only(credentials[..i], rows, provider, now)
    {
      assert credentials[..i + 1][..i] == credentials[..i];
      if Eligible(credentials[i], rows, provider, now) {
        eligible := eligible + [credentials[i]];
      }
    }
    assert credentials[..|credentials|] == credentials;
    chosen := Sort(eligible, ByLoad(rows));
    EligibleAreInOrder(credentials, rows, provider, now);
  }

  lemma EligibleAreInOrder(credentials: seq<Credential>, rows: HealthRows, provider: string, now: int)
    ensures var chosen := EligibleInOrder(credentials, rows, provider, now);
      && multiset(chosen) == multiset(Only(credentials, rows, provider, now))
      && (forall i, j :: 0 <= i < j < |chosen| ==> LoadLe(chosen[i], chosen[j], rows))
      && forall c :: c in chosen <==> c in credentials && Eligible(c, rows, provider, now)
  {
    var eligible := Only(credentials, rows, provider, now);
    var chosen := EligibleInOrder(credentials, rows, provider, now);
    ByLoadIsPreorder(rows);
    SortKeeps(eligible, ByLoad(rows));
    SortSorts(eligible, ByLoad(rows));
    OnlyIsFilter(credentials, rows, provider, now);
    forall c ensures c in chosen <==> c in eligible {
      assert c in chosen <==> c in multiset(chosen);
      assert c in eligible <==> c in multiset(eligible);
    }
  }

  function Only(credentials: seq<Credential>, rows: HealthRows, provider: string, now: int): seq<Credential> {
    if credentials == [] then []
    else
      var last := credentials[|credentials| - 1];
      Only(credentials[..|credentials| - 1], rows, provider, now)
      + (if Eligible(last, rows, provider, now) then [last] else [])
  }

  lemma {:induction false} OnlyIsFilter(credentials: seq<Credential>, rows: HealthRows, provider: string, now: int)
    ensures forall c :: c in Only(credentials, rows, provider, now)
                        <==> c in credentials && Eligible(c, rows, provider, now)
  {
    if credentials != [] {
      var rest := credentials[..|credentials| - 1];
      OnlyIsFilter(rest, rows, provider, now);
      assert credentials == rest + [credentials[|credentials| - 1]];
    }
  }

  // ---------------------------------------------------------------- candidates

  datatype Snapshot = Snapshot(
    candidate: string, model: string, contextWindow: Option<int>, outputLimit: Option<int>,
    tools: bool, structured: bool, text: bool, provider: string, combinedWindow: bool,
    cooldownUntil: Option<int>, credentials: seq<string>)

  datatype Requirements = Requirements(
    tools: bool, structured: bool, text: bool, inputTokens: int, outputTokens: int, maxOutputTokens: Option<int>)

  /** `requirements.output_tokens or request.max_output_tokens or output_limit or 0` */
  function OutputTokens(s: Snapshot, req: Requirements): int {
    if req.outputTokens != 0 then req.outputTokens
    else if req.maxOutputTokens.Some? && req.maxOutputTokens.value != 0 then req.maxOutputTokens.value
    else if s.outputLimit.Some? then s.outputLimit.value
    else 0
  }

  /** `effective_input_window`; `combinedWindow` says the provider shares its window with the output. */
  function InputWindow(s: Snapshot, window: int, output: int): int {
    if !s.combinedWindow then window else if window - output > 0 then window - output else 0
  }

  /** No reason to skip the candidate. */
  predicate Usable(s: Snapshot, req: Requirements, now: int, adapters: set<string>) {
    && (req.tools ==> s.tools)
    && (req.structured ==> s.structured)
    && (req.text ==> s.text)
    && s.contextWindow.Some?
    && InputWindow(s, s.contextWindow.value, OutputTokens(s, req)) >= req.inputTokens
    && CooledDown(s.cooldownUntil, now)
    && s.provider in adapters
  }

  /** A candidate that shares its window with the output must hold both; others only the input. What the
      request asks for comes before what the model allows. */
  lemma UsableMeans(s: Snapshot, req: Requirements, now: int, adapters: set<string>)
    ensures var asked := if req.maxOutputTokens == None then 0 else req.maxOutputTokens.value;
      var limit := if s.outputLimit == None then 0 else s.outputLimit.value;
      var output := if req.outputTokens != 0 then req.outputTokens else if asked != 0 then asked else limit;
      Usable(s, req, now, adapters)
      <==> && !(req.tools && !s.tools) && !(req.structured && !s.structured) && !(req.text && !s.text)
           && s.contextWindow.Some?
           && (if s.combinedWindow then req.inputTokens <= 0 || req.inputTokens + output <= s.contextWindow.value
               else req.inputTokens <= s.contextWindow.value)
           && !(s.cooldownUntil.Some? && s.cooldownUntil.value > now)
           && s.provider in adapters
  {
  }

  // ---------------------------------------------------------------- the candidates of a route

  datatype Model = Model(id: string, provider: string, active: bool)

  datatype Candidate = Candidate(id: string, model: Option<string>, provider: string)

  /** The models a candidate stands for: the one it names, or all active ones of its provider. */
  predicate Lists(c: Candidate, m: Model) {
    if c.model.Some? then m.id == c.model.value else m.provider == c.provider && m.active
  }

  predicate Offered(m: Model, activeProviders: set<string>) {
    m.active && m.provider in activeProviders
  }

  /** A candidate stands for the model it names, else for every model of its provider; only active models
      of active providers are offered. */
  lemma CandidatesMean(c: Candidate, m: Model, activeProviders: set<string>)
    ensures Lists(c, m) && Offered(m, activeProviders)
            <==> m.active && m.provider in activeProviders
                 && (c.model == Some(m.id) || (c.model == None && c.provider == m.provider))
  {
  }

  /** Places of candidates and models in the order the loops visit them. */
  predicate VisitedBefore(x: (nat, nat), y: (nat, nat)) {
    x.0 < y.0 || (x.0 == y.0 && x.1 < y.1)
  }

  /** At this place a candidate lists an offered model. */
  predicate Hit(candidates: seq<Candidate>, models: seq<Model>, activeProviders: set<string>, x: (nat, nat)) {
    x.0 < |candidates| && x.1 < |models|
    && Lists(candidates[x.0], models[x.1]) && Offered(models[x.1], activeProviders)
  }

  /** The snapshot loops of `complete`: every offered model some candidate lists, once, at the first place
      that lists it (`at`), and in that order. As no model comes twice, a candidate and model whose
      structured output was refused never come up again, so the check for that pair never skips anything. */
  method SnapshotModels(candidates: seq<Candidate>, models: seq<Model>, activeProviders: set<string>)
    returns (chosen: seq<(Candidate, Model)>, ghost at: seq<(nat, nat)>)
    ensures forall i, j :: 0 <= i < j < |chosen| ==> chosen[i].1.id != chosen[j].1.id
    ensures |at| == |chosen| && forall i, j :: 0 <= i < j < |at| ==> VisitedBefore(at[i], at[j])
    ensures forall k :: 0 <= k < |chosen| ==>
              && Hit(candidates, models, activeProviders, at[k])
              && chosen[k] == (candidates[at[k].0], models[at[k].1])
    ensures forall x: (nat, nat) :: Hit(candidates, models, activeProviders, x) ==> SeenBy(chosen, at, models, x)
  {
    chosen, at := [], [];
    var seen: set<string> := {};
    for i := 0 to |candidates|
      invariant SeenAll(chosen, seen) && ChosenAt(chosen, at, candidates, models, activeProviders, (i, 0))
      invariant HitsSeen(chosen, at, candidates, models, activeProviders, (i, 0))
    {
      for j := 0 to |models|
        invariant SeenAll(chosen, seen) && ChosenAt(chosen, at, candidates, models, activeProviders, (i, j))
        invariant HitsSeen(chosen, at, candidates, models, activeProviders, (i, j))
      {
        var m := models[j];
        if !Lists(candidates[i], m) || !m.active || m.id in seen || m.provider !in activeProviders {
          PassesBy(chosen, at, candidates, models, activeProviders, seen, i, j);
        } else {
          Takes(chosen, at, candidates, models, activeProviders, seen, i, j);
          seen := seen + {m.id};
          chosen := chosen + [(candidates[i], m)];
          at := at + [(i, j)];
        }
      }
      NextCandidate(chosen, at, candidates, models, activeProviders, i);
    }
  }

  ghost predicate ChosenAt(
    chosen: seq<(Candidate, Model)>, at: seq<(nat, nat)>, candidates: seq<Candidate>, models: seq<Model>,
    activeProviders: set<string>, now: (nat, nat))
  {
    && |at| == |chosen|
    && (forall i, j :: 0 <= i < j < |at| ==> VisitedBefore(at[i], at[j]))
    && (forall k :: 0 <= k < |at| ==>
          && VisitedBefore(at[k], now) && Hit(candidates, models, activeProviders, at[k])
          && chosen[k] == (candidates[at[k].0], models[at[k].1]))
  }

  /** The model of every place visited so far that lists an offered one has been chosen by then. */
  ghost predicate HitsSeen(
    chosen: seq<(Candidate, Model)>, at: seq<(nat, nat)>, candidates: seq<Candidate>, models: seq<Model>,
    activeProviders: set<string>, now: (nat, nat))
    requires |at| == |chosen|
  {
    forall x: (nat, nat) :: VisitedBefore(x, now) && Hit(candidates, models, activeProviders, x) ==>
      SeenBy(chosen, at, models, x)
  }

  /** The model of this place was chosen here or earlier. */
  ghost predicate SeenBy(chosen: seq<(Candidate, Model)>, at: seq<(nat, nat)>, models: seq<Model>, x: (nat, nat))
  {
    x.1 < |models| && |at| == |chosen| &&
    exists k :: 0 <= k < |chosen| && chosen[k].1.id == models[x.1].id && (at[k] == x || VisitedBefore(at[k], x))
  }

  lemma PassesBy(
    chosen: seq<(Candidate, Model)>, at: seq<(nat, nat)>, candidates: seq<Candidate>, models: seq<Model>,
    activeProviders: set<string>, seen: set<string>, i: nat, j: nat)
    requires SeenAll(chosen, seen) && ChosenAt(chosen, at, candidates, models, activeProviders, (i, j))
    requires HitsSeen(chosen, at, candidates, models, activeProviders, (i, j))
    requires i < |candidates| && j < |models|
    requires Hit(candidates, models, activeProviders, (i, j)) ==> models[j].id in seen
    ensures ChosenAt(chosen, at, candidates, models, activeProviders, (i, j + 1))
    ensures HitsSeen(chosen, at, candidates, models, activeProviders, (i, j + 1))
  {
    if models[j].id in seen {
      var k :| 0 <= k < |chosen| && chosen[k].1.id == models[j].id;
      assert VisitedBefore(at[k], (i, j));
      assert SeenBy(chosen, at, models, (i, j));
    }
    forall x: (nat, nat) | VisitedBefore(x, (i, j + 1)) && Hit(candidates, models, activeProviders, x)
      ensures SeenBy(chosen, at, models, x)
    {
      assert x == (i, j) || VisitedBefore(x, (i, j));
    }
  }

  lemma Takes(
    chosen: seq<(Candidate, Model)>, at: seq<(nat, nat)>, candidates: seq<Candidate>, models: seq<Model>,
    activeProviders: set<string>, seen: set<string>, i: nat, j: nat)
    requires SeenAll(chosen, seen) && ChosenAt(chosen, at, candidates, models, activeProviders, (i, j))
    requires HitsSeen(chosen, at, candidates, models, activeProviders, (i, j))
    requires Hit(candidates, models, activeProviders, (i, j)) && models[j].id !in seen
    ensures var longer := chosen + [(candidates[i], models[j])];
      && SeenAll(longer, seen + {models[j].id})
      && ChosenAt(longer, at + [(i, j)], candidates, models, activeProviders, (i, j + 1))
      && HitsSeen(longer, at + [(i, j)], candidates, models, activeProviders, (i, j + 1))
  {
    var pair := (candidates[i], models[j]);
    SeenOneMore(chosen, seen, pair);
    KeepsSeen(chosen, at, models, pair, (i, j));
    forall x: (nat, nat) | VisitedBefore(x, (i, j + 1)) && Hit(candidates, models, activeProviders, x)
      ensures SeenBy(chosen + [pair], at + [(i, j)], models, x)
    {
      assert x == (i, j) || VisitedBefore(x, (i, j));
    }
  }

  lemma NextCandidate(
    chosen: seq<(Candidate, Model)>, at: seq<(nat, nat)>, candidates: seq<Candidate>, models: seq<Model>,
    activeProviders: set<string>, i: nat)
    requires ChosenAt(chosen, at, candidates, models, activeProviders, (i, |models|))
    requires HitsSeen(chosen, at, candidates, models, activeProviders, (i, |models|))
    ensures ChosenAt(chosen, at, candidates, models, activeProviders, (i + 1, 0))
    ensures HitsSeen(chosen, at, candidates, models, activeProviders, (i + 1, 0))
  {
    forall x: (nat, nat) | VisitedBefore(x, (i + 1, 0)) && Hit(candidates, models, activeProviders, x)
      ensures SeenBy(chosen, at, models, x)
    {
      assert VisitedBefore(x, (i, |models|));
    }
  }

  lemma KeepsSeen(
    chosen: seq<(Candidate, Model)>, at: seq<(nat, nat)>, models: seq<Model>, pair: (Candidate, Model), now: (nat, nat))
    requires |at| == |chosen| && now.1 < |models| && pair.1 == models[now.1]
    ensures forall x: (nat, nat) :: x.1 < |models| && SeenBy(chosen, at, models, x) ==>
              SeenBy(chosen + [pair], at + [now], models, x)
    ensures SeenBy(chosen + [pair], at + [now], models, now)
  {
    forall x: (nat, nat) | x.1 < |models| && SeenBy(chosen, at, models, x)
      ensures SeenBy(chosen + [pair], at + [now], models, x)
    {
      var k :| 0 <= k < |chosen| && chosen[k].1.id == models[x.1].id && (at[k] == x || VisitedBefore(at[k], x));
      assert (chosen + [pair])[k] == chosen[k] && (at + [now])[k] == at[k];
    }
    assert (chosen + [pair])[|chosen|] == pair && (at + [now])[|chosen|] == now;
  }

  ghost predicate SeenAll(chosen: seq<(Candidate, Model)>, seen: set<string>) {
    && (forall id :: id in seen <==> exists k :: 0 <= k < |chosen| && chosen[k].1.id == id)
    && (forall i, j :: 0 <= i < j < |chosen| ==> chosen[i].1.id != chosen[j].1.id)
  }

  lemma SeenOneMore(chosen: seq<(Candidate, Model)>, seen: set<string>, x: (Candidate, Model))
    requires SeenAll(chosen, seen) && x.1.id !in seen
    ensures SeenAll(chosen + [x], seen + {x.1.id})
  {
    var longer := chosen + [x];
    assert longer[|chosen|] == x;
    forall id | id in seen ensures exists k :: 0 <= k < |longer| && longer[k].1.id == id {
      var k :| 0 <= k < |chosen| && chosen[k].1.id == id;
      assert longer[k].1.id == id;
    }
  }

  // ---------------------------------------------------------------- what a call does

  datatype Attempt = Attempt(place: nat, credential: string, answer: Answer)

  datatype Outcome = Served | Error(errorClass: ErrorClass)

  predicate FailedForNow(a: Attempt) {
    a.answer.Fails? && Retryable(a.answer.failure.errorClass)
  }

  predicate Leaves(a: Attempt) {
    a.answer.Fails? && a.answer.failure.errorClass.Capability?
  }

  predicate Ends(a: Attempt) {
    a.answer.Success? || !(FailedForNow(a) || Leaves(a))
  }

  /** `error.retry_after or 30` */
  function CooldownSeconds(failure: Failure): nat {
    if failure.retryAfter.Some? && failure.retryAfter.value != 0 then failure.retryAfter.value else 30
  }

  /** What one attempt writes to its credential's row: before it, and by how it ended. */
  function Selected(health: Health): Health {
    health.(selectionCount := health.selectionCount + 1)
  }

  function Answered(health: Health, answer: Answer, now: int): Health {
    match answer
    case Success => health.(failureCount := 0, lastError := None)
    case Fails(failure) =>
      if failure.errorClass.Auth? then
        health.(lastError := Some(Auth), failureCount := health.failureCount + 1, disabled := true)
      else if failure.errorClass.RateLimit? || failure.errorClass.Transient? then
        health.(lastError := Some(failure.errorClass), failureCount := health.failureCount + 1,
                cooldownUntil := Some(now + CooldownSeconds(failure)))
      else health
  }

  function RowsAfter(rows: HealthRows, trace: seq<Attempt>, now: int): HealthRows {
    if trace == [] then rows
    else
      var before, a := RowsAfter(rows, trace[..|trace| - 1], now), trace[|trace| - 1];
      before[a.credential := Answered(Selected(HealthOf(before, a.credential)), a.answer, now)]
  }

  /** A credential that failed with AUTH, RATE_LIMIT or TRANSIENT is not used again, whatever the
      model. */
  predicate NeverAgain(trace: seq<Attempt>) {
    forall i, j :: 0 <= i < j < |trace| && FailedForNow(trace[i]) ==> trace[i].credential != trace[j].credential
  }

  /** Attempts follow the route: usable candidates in order, their own credentials, and nothing after
      an attempt that ends the call. */
  predicate Routed(trace: seq<Attempt>, route: Route) {
    && (forall k :: 0 <= k < |trace| ==>
          trace[k].place < |route.snapshots|
          && Usable(route.snapshots[trace[k].place], route.req, route.now, route.adapters)
          && trace[k].credential in route.snapshots[trace[k].place].credentials)
    && (forall k :: 0 <= k < |trace| - 1 ==> !Ends(trace[k]))
    && (forall j, k :: 0 <= j < k < |trace| ==>
          trace[j].place <= trace[k].place && (Leaves(trace[j]) ==> trace[j].place < trace[k].place))
  }

  predicate Tried(trace: seq<Attempt>, credential: string) {
    exists k :: 0 <= k < |trace| && FailedForNow(trace[k]) && trace[k].credential == credential
  }

  predicate LeftEarly(trace: seq<Attempt>, place: nat) {
    exists k :: 0 <= k < |trace| && Leaves(trace[k]) && trace[k].place == place
  }

  /** Candidate `q` is not usable or was left early, or each of its credentials from `i` on has failed
      for now, in this call or (`out`) before. */
  predicate Exhausted(trace: seq<Attempt>, route: Route, q: nat, i: nat, out: set<string>)
    requires q < |route.snapshots|
  {
    Usable(route.snapshots[q], route.req, route.now, route.adapters) ==>
      LeftEarly(trace, q)
      || forall j :: i <= j < |route.snapshots[q].credentials| ==>
           route.snapshots[q].credentials[j] in out || Tried(trace, route.snapshots[q].credentials[j])
  }

  /** The last failure that another candidate may make up for. */
  function LastRetryable(trace: seq<Attempt>): Option<ErrorClass> {
    if trace == [] then None
    else
      var a := trace[|trace| - 1];
      if a.answer.Fails? && a.answer.failure.errorClass in {Capability, RateLimit, Transient}
      then Some(a.answer.failure.errorClass) else LastRetryable(trace[..|trace| - 1])
  }

  function ResultOf(trace: seq<Attempt>): Outcome {
    if trace != [] && trace[|trace| - 1].answer.Success? then Served
    else if trace != [] && Ends(trace[|trace| - 1]) then Error(trace[|trace| - 1].answer.failure.errorClass)
    else if LastRetryable(trace).Some? then Error(LastRetryable(trace).value)
    else Error(Transient)
  }

  /** Errors that end a call, and errors that another candidate may make up for. */
  const FINAL: set<ErrorClass> := {Context, Input, Internal}

  const PASSING: set<ErrorClass> := {Capability, RateLimit, Transient}

  predicate FailedAs(a: Attempt, classes: set<ErrorClass>) {
    a.answer.Fails? && a.answer.failure.errorClass in classes
  }

  predicate EndedWell(trace: seq<Attempt>) {
    trace != [] && trace[|trace| - 1].answer.Success?
  }

  predicate EndedByError(trace: seq<Attempt>) {
    trace != [] && FailedAs(trace[|trace| - 1], FINAL)
  }

  /** The greatest index of an attempt that failed in passing. */
  predicate LastPassing(trace: seq<Attempt>, k: int) {
    0 <= k < |trace| && FailedAs(trace[k], PASSING) && forall j :: k < j < |trace| ==> !FailedAs(trace[j], PASSING)
  }

  /** What a call comes to: the answer of a last attempt that succeeded, the error of one that ended it,
      else the last passing error, and a transient one if there was none. */
  lemma ResultMeans(trace: seq<Attempt>)
    ensures ResultOf(trace).Served? <==> EndedWell(trace)
    ensures EndedByError(trace) ==>
              ResultOf(trace) == Error(trace[|trace| - 1].answer.failure.errorClass)
    ensures !(EndedWell(trace) || EndedByError(trace)) ==>
              && (forall k :: LastPassing(trace, k) ==> ResultOf(trace) == Error(trace[k].answer.failure.errorClass))
              && ((forall k :: 0 <= k < |trace| ==> !FailedAs(trace[k], PASSING)) ==>
                    ResultOf(trace) == Error(Transient))
  {
    LastRetryableIsLast(trace);
  }

  lemma {:induction false} LastRetryableIsLast(trace: seq<Attempt>)
    ensures forall k :: LastPassing(trace, k) ==> LastRetryable(trace) == Some(trace[k].answer.failure.errorClass)
    ensures (forall k :: 0 <= k < |trace| ==> !FailedAs(trace[k], PASSING)) ==> LastRetryable(trace).None?
  {
    if trace != [] {
      var rest := trace[..|trace| - 1];
      LastRetryableIsLast(rest);
      forall k | LastPassing(trace, k) && k < |rest| ensures LastPassing(rest, k) {
        assert forall j :: 0 <= j < |rest| ==> rest[j] == trace[j];
      }
      assert forall j :: 0 <= j < |rest| ==> rest[j] == trace[j];
    }
  }

  // ---------------------------------------------------------------- the attempts of one call

  /** Everything a call depends on: the snapshots of its route and how each attempt will end. */
  datatype Route = Route(
    snapshots: seq<Snapshot>, req: Requirements, now: int, adapters: set<string>, answers: nat -> Answer)

  /** The local variables of a call. */
  datatype Call = Call(attempts: nat, lastRetryable: Option<ErrorClass>, unavailable: set<string>)

  const START := Call(0, None, {})

  function After(call: Call, a: Attempt): Call {
    Call(call.attempts + 1,
         if a.answer.Fails? && a.answer.failure.errorClass in {Capability, RateLimit, Transient}
         then Some(a.answer.failure.errorClass) else call.lastRetryable,
         if FailedForNow(a) then call.unavailable + {a.credential} else call.unavailable)
  }

  /** The attempts made from credential `i` of candidate `p` on. */
  function Attempts(route: Route, p: nat, i: nat, call: Call): seq<Attempt>
    decreases |route.snapshots| - p, if p < |route.snapshots| then |route.snapshots[p].credentials| - i else 0
  {
    if p >= |route.snapshots| then []
    else
      var s := route.snapshots[p];
      if !Usable(s, route.req, route.now, route.adapters) || i >= |s.credentials| then Attempts(route, p + 1, 0, call)
      else if s.credentials[i] in call.unavailable then Attempts(route, p, i + 1, call)
      else
        var a := Attempt(p, s.credentials[i], route.answers(call.attempts));
        if Ends(a) then [a]
        else if Leaves(a) then [a] + Attempts(route, p + 1, 0, After(call, a))
        else [a] + Attempts(route, p, i + 1, After(call, a))
  }

  function AttemptsOf(route: Route): seq<Attempt> {
    Attempts(route, 0, 0, START)
  }

  function CallAfter(trace: seq<Attempt>): Call {
    if trace == [] then START else After(CallAfter(trace[..|trace| - 1]), trace[|trace| - 1])
  }

  class ProviderRouter {
    var rows: HealthRows

    constructor ()
      ensures rows == map[]
    {
      rows := map[];
    }

    /** The attempt loop of `complete`. */
    method Complete(route: Route) returns (r: Outcome, ghost trace: seq<Attempt>)
      modifies this
      ensures trace == AttemptsOf(route)
      ensures rows == RowsAfter(old(rows), trace, route.now)
      ensures r == ResultOf(trace)
      ensures r.Served? <==> EndedWell(trace)
      ensures EndedByError(trace) ==> r == Error(trace[|trace| - 1].answer.failure.errorClass)
      ensures !(EndedWell(trace) || EndedByError(trace)) ==>
                && (forall k :: LastPassing(trace, k) ==> r == Error(trace[k].answer.failure.errorClass))
                && ((forall k :: 0 <= k < |trace| ==> !FailedAs(trace[k], PASSING)) ==> r == Error(Transient))
    {
      r, trace := TryCandidates(route);
      ResultMeans(trace);
    }

    method TryCandidates(route: Route) returns (r: Outcome, ghost trace: seq<Attempt>)
      modifies this
      ensures trace == AttemptsOf(route)
      ensures rows == RowsAfter(old(rows), trace, route.now)
      ensures r == ResultOf(trace)
    {
      ghost var start := rows;
      var call := START;
      trace := [];
      for p := 0 to |route.snapshots|
        invariant trace + Attempts(route, p, 0, call) == AttemptsOf(route)
        invariant Noted(trace, call) && rows == RowsAfter(start, trace, route.now)
      {
        if Usable(route.snapshots[p], route.req, route.now, route.adapters) {
          var ended: Option<Outcome>;
          ended, call, trace := TryCandidate(route, p, call, trace, start);
          if ended.Some? {
            return ended.value, trace;
          }
        }
      }
      return if call.lastRetryable.Some? then Error(call.lastRetryable.value) else Error(Transient), trace;
    }

    /** The loop over one candidate's credentials; `ended` is what the call returns or raises. */
    method TryCandidate(
      route: Route, p: nat, before: Call, ghost traceBefore: seq<Attempt>, ghost start: HealthRows)
      returns (ended: Option<Outcome>, call: Call, ghost trace: seq<Attempt>)
      requires p < |route.snapshots| && Usable(route.snapshots[p], route.req, route.now, route.adapters)
      requires Noted(traceBefore, before) && rows == RowsAfter(start, traceBefore, route.now)
      modifies this
      ensures rows == RowsAfter(start, trace, route.now)
      ensures ended.None? ==> Noted(trace, call)
      ensures ended.Some? ==> ended.value == ResultOf(trace)
      ensures traceBefore + Attempts(route, p, 0, before)
              == trace + (if ended.Some? then [] else Attempts(route, p + 1, 0, call))
    {
      call, trace := before, traceBefore;
      var credentials := route.snapshots[p].credentials;
      for i := 0 to |credentials|
        invariant traceBefore + Attempts(route, p, 0, before) == trace + Attempts(route, p, i, call)
        invariant Noted(trace, call) && rows == RowsAfter(start, trace, route.now)
      {
        var credential := credentials[i];
        if credential in call.unavailable {
          continue;
        }
        var answer := TryCredential(credential, route, call.attempts);
        ghost var a := Attempt(p, credential, answer);
        OneMore(start, trace, call, a, route.now);
        NextAttempt(route, p, i, call, trace);
        trace := trace + [a];
        call := Note(call, Attempt(p, credential, answer));
        if answer.Success? {
          return Some(Served), call, trace;
        }
        if answer.failure.errorClass.Capability? {
          return None, call, trace;
        }
        if !Retryable(answer.failure.errorClass) {
          return Some(Error(answer.failure.errorClass)), call, trace;
        }
      }
      return None, call, trace;
    }

    /** The selection is counted before the attempt, its answer written after it. */
    method TryCredential(credential: string, route: Route, attempts: nat) returns (answer: Answer)
      modifies this
      ensures answer == route.answers(attempts)
      ensures rows == old(rows)[credential := Answered(Selected(HealthOf(old(rows), credential)), answer, route.now)]
    {
      rows := rows[credential := Selected(HealthOf(rows, credential))];
      answer := route.answers(attempts);
      rows := rows[credential := Answered(rows[credential], answer, route.now)];
    }
  }

  /** What the call remembers of an attempt. */
  method Note(before: Call, a: Attempt) returns (call: Call)
    ensures call == After(before, a)
  {
    call := before.(attempts := before.attempts + 1);
    if a.answer.Fails? {
      if Retryable(a.answer.failure.errorClass) {
        call := call.(unavailable := call.unavailable + {a.credential});
      }
      if a.answer.failure.errorClass in {Capability, RateLimit, Transient} {
        call := call.(lastRetryable := Some(a.answer.failure.errorClass));
      }
    }
  }

  /** The attempts so far leave the call open, and its variables are what they noted. */
  predicate Noted(trace: seq<Attempt>, call: Call) {
    && (trace == [] || !Ends(trace[|trace| - 1]))
    && call == CallAfter(trace) && call.lastRetryable == LastRetryable(trace)
  }

  lemma OneMore(rows: HealthRows, trace: seq<Attempt>, call: Call, a: Attempt, now: int)
    requires Noted(trace, call)
    ensures var before := RowsAfter(rows, trace, now);
      RowsAfter(rows, trace + [a], now)
      == before[a.credential := Answered(Selected(HealthOf(before, a.credential)), a.answer, now)]
    ensures !Ends(a) ==> Noted(trace + [a], After(call, a))
  {
    assert (trace + [a])[..|trace|] == trace;
  }

  lemma NextAttempt(route: Route, p: nat, i: nat, call: Call, trace: seq<Attempt>)
    requires p < |route.snapshots| && Usable(route.snapshots[p], route.req, route.now, route.adapters)
    requires i < |route.snapshots[p].credentials| && route.snapshots[p].credentials[i] !in call.unavailable
    ensures var a := Attempt(p, route.snapshots[p].credentials[i], route.answers(call.attempts));
      trace + Attempts(route, p, i, call)
      == (trace + [a]) + (if Ends(a) then [] else if Leaves(a) then Attempts(route, p + 1, 0, After(call, a))
                          else Attempts(route, p, i + 1, After(call, a)))
  {
  }

  // ---------------------------------------------------------------- what every call keeps

  /** Attempts follow the route, a credential that failed for now is not used again, and every answer
      is the one its attempt got. */
  lemma CallFollowsTheRoute(route: Route)
    ensures Routed(AttemptsOf(route), route) && NeverAgain(AttemptsOf(route))
    ensures forall k :: 0 <= k < |AttemptsOf(route)| ==> AttemptsOf(route)[k].answer == route.answers(k)
  {
    AttemptsAreRouted(route, 0, 0, START);
    FailedStayOut(route, 0, 0, START);
    forall k | 0 <= k < |AttemptsOf(route)| ensures AttemptsOf(route)[k].answer == route.answers(k) {
      AnswersInOrder(route, 0, 0, START, k);
    }
  }

  ghost predicate RoutedFrom(trace: seq<Attempt>, route: Route, p: nat) {
    Routed(trace, route) && forall k :: 0 <= k < |trace| ==> trace[k].place >= p
  }

  lemma {:induction false} AttemptsAreRouted(route: Route, p: nat, i: nat, call: Call)
    ensures RoutedFrom(Attempts(route, p, i, call), route, p)
    decreases |route.snapshots| - p, if p < |route.snapshots| then |route.snapshots[p].credentials| - i else 0
  {
    if p < |route.snapshots| {
      var s := route.snapshots[p];
      if !Usable(s, route.req, route.now, route.adapters) || i >= |s.credentials| {
        AttemptsAreRouted(route, p + 1, 0, call);
        assert Attempts(route, p, i, call) == Attempts(route, p + 1, 0, call);
      } else if s.credentials[i] in call.unavailable {
        AttemptsAreRouted(route, p, i + 1, call);
        assert Attempts(route, p, i, call) == Attempts(route, p, i + 1, call);
      } else {
        var a := Attempt(p, s.credentials[i], route.answers(call.attempts));
        if Leaves(a) {
          AttemptsAreRouted(route, p + 1, 0, After(call, a));
          RoutedCons(route, a, Attempts(route, p + 1, 0, After(call, a)));
        } else if !Ends(a) {
          AttemptsAreRouted(route, p, i + 1, After(call, a));
          RoutedCons(route, a, Attempts(route, p, i + 1, After(call, a)));
        }
      }
    }
  }

  lemma RoutedCons(route: Route, a: Attempt, rest: seq<Attempt>)
    requires a.place < |route.snapshots| && !Ends(a)
    requires Usable(route.snapshots[a.place], route.req, route.now, route.adapters)
    requires a.credential in route.snapshots[a.place].credentials
    requires RoutedFrom(rest, route, if Leaves(a) then a.place + 1 else a.place)
    ensures RoutedFrom([a] + rest, route, a.place)
  {
    var trace := [a] + rest;
    assert forall k :: 0 < k < |trace| ==> trace[k] == rest[k - 1];
  }

  lemma {:induction false} FailedStayOut(route: Route, p: nat, i: nat, call: Call)
    ensures var trace := Attempts(route, p, i, call);
      NeverAgain(trace) && forall k :: 0 <= k < |trace| ==> trace[k].credential !in call.unavailable
    decreases |route.snapshots| - p, if p < |route.snapshots| then |route.snapshots[p].credentials| - i else 0
  {
    if p < |route.snapshots| {
      var s := route.snapshots[p];
      if !Usable(s, route.req, route.now, route.adapters) || i >= |s.credentials| {
        FailedStayOut(route, p + 1, 0, call);
      } else if s.credentials[i] in call.unavailable {
        FailedStayOut(route, p, i + 1, call);
      } else {
        var a := Attempt(p, s.credentials[i], route.answers(call.attempts));
        if Leaves(a) {
          FailedStayOut(route, p + 1, 0, After(call, a));
        } else if !Ends(a) {
          FailedStayOut(route, p, i + 1, After(call, a));
        }
      }
    }
  }

  lemma {:induction false} AnswersInOrder(route: Route, p: nat, i: nat, call: Call, k: nat)
    requires k < |Attempts(route, p, i, call)|
    ensures Attempts(route, p, i, call)[k].answer == route.answers(call.attempts + k)
    decreases |route.snapshots| - p, if p < |route.snapshots| then |route.snapshots[p].credentials| - i else 0
  {
    var s := route.snapshots[p];
    if !Usable(s, route.req, route.now, route.adapters) || i >= |s.credentials| {
      AnswersInOrder(route, p + 1, 0, call, k);
    } else if s.credentials[i] in call.unavailable {
      AnswersInOrder(route, p, i + 1, call, k);
    } else if k > 0 {
      var a := Attempt(p, s.credentials[i], route.answers(call.attempts));
      if Leaves(a) {
        AnswersInOrder(route, p + 1, 0, After(call, a), k - 1);
      } else {
        AnswersInOrder(route, p, i + 1, After(call, a), k - 1);
      }
    }
  }

  /** A call that no attempt ended left nothing on its route untried. */
  lemma UnendedCallsTriedEverything(route: Route, q: nat)
    requires q < |route.snapshots|
    requires var trace := AttemptsOf(route); trace == [] || !Ends(trace[|trace| - 1])
    ensures Exhausted(AttemptsOf(route), route, q, 0, {})
  {
    NothingLeft(route, 0, 0, START, q);
  }

  lemma {:induction false} NothingLeft(route: Route, p: nat, i: nat, call: Call, q: nat)
    requires p <= q < |route.snapshots|
    requires var trace := Attempts(route, p, i, call); trace == [] || !Ends(trace[|trace| - 1])
    ensures Exhausted(Attempts(route, p, i, call), route, q, if q == p then i else 0, call.unavailable)
    decreases |route.snapshots| - p, if p < |route.snapshots| then |route.snapshots[p].credentials| - i else 0
  {
    var s := route.snapshots[p];
    if !Usable(s, route.req, route.now, route.adapters) || i >= |s.credentials| {
      if q > p {
        NothingLeft(route, p + 1, 0, call, q);
      }
    } else if s.credentials[i] in call.unavailable {
      NothingLeft(route, p, i + 1, call, q);
    } else {
      var a := Attempt(p, s.credentials[i], route.answers(call.attempts));
      if Leaves(a) {
        if q > p {
          NothingLeft(route, p + 1, 0, After(call, a), q);
        }
        ExhaustedCons(route, a, Attempts(route, p + 1, 0, After(call, a)), p, i, call, q);
      } else {
        NothingLeft(route, p, i + 1, After(call, a), q);
        ExhaustedCons(route, a, Attempts(route, p, i + 1, After(call, a)), p, i, call, q);
      }
    }
  }

  lemma ExhaustedCons(route: Route, a: Attempt, rest: seq<Attempt>, p: nat, i: nat, call: Call, q: nat)
    requires p <= q < |route.snapshots| && i < |route.snapshots[p].credentials| && a.place == p
    requires a.credential == route.snapshots[p].credentials[i] && !Ends(a)
    requires q > p || !Leaves(a) ==>
               Exhausted(rest, route, q, if q == p then i + 1 else 0, After(call, a).unavailable)
    ensures Exhausted([a] + rest, route, q, if q == p then i else 0, call.unavailable)
  {
    TriedCons(a, rest);
    if Leaves(a) && q == p {
      assert ([a] + rest)[0] == a;
      assert LeftEarly([a] + rest, p);
    }
  }

  lemma TriedCons(a: Attempt, rest: seq<Attempt>)
    ensures forall c :: Tried([a] + rest, c) <==> Tried(rest, c) || (FailedForNow(a) && c == a.credential)
    ensures forall q :: LeftEarly(rest, q) ==> LeftEarly([a] + rest, q)
  {
    var trace := [a] + rest;
    assert trace[0] == a;
    forall c ensures Tried(trace, c) <==> Tried(rest, c) || (FailedForNow(a) && c == a.credential) {
      if Tried(rest, c) {
        var k :| 0 <= k < |rest| && FailedForNow(rest[k]) && rest[k].credential == c;
        assert trace[k + 1] == rest[k];
      }
    }
    forall q | LeftEarly(rest, q) ensures LeftEarly(trace, q) {
      var k :| 0 <= k < |rest| && Leaves(rest[k]) && rest[k].place == q;
      assert trace[k + 1] == rest[k];
    }
  }

  // ---------------------------------------------------------------- what is reached

  /** Before credential `c` of candidate `q` comes up, something ended the call or made it leave the
      candidate, or the credential failed under another candidate. */
  predicate Forestalled(trace: seq<Attempt>, q: nat, c: string) {
    exists k :: 0 <= k < |trace|
                && (|| (Ends(trace[k]) && (trace[k].place != q || trace[k].credential != c))
                    || (Leaves(trace[k]) && trace[k].place == q && trace[k].credential != c)
                    || (FailedForNow(trace[k]) && trace[k].credential == c && trace[k].place != q))
  }

  predicate Made(trace: seq<Attempt>, q: nat, c: string) {
    exists k :: 0 <= k < |trace| && trace[k].place == q && trace[k].credential == c
  }

  /** Every credential of every usable candidate is tried unless something forestalls it; and if its
      attempt succeeds, the call is served by it. */
  lemma EveryCredentialIsReached(route: Route, q: nat, j: nat)
    requires q < |route.snapshots| && Usable(route.snapshots[q], route.req, route.now, route.adapters)
    requires j < |route.snapshots[q].credentials|
    ensures var trace, c := AttemptsOf(route), route.snapshots[q].credentials[j];
      && (Made(trace, q, c) || Forestalled(trace, q, c))
      && forall k :: 0 <= k < |trace| && trace[k].place == q && trace[k].credential == c && route.answers(k).Success?
           ==> k == |trace| - 1 && ResultOf(trace) == Served
  {
    CallFollowsTheRoute(route);
    Reached(route, 0, 0, START, q, j);
  }

  lemma {:induction false} Reached(route: Route, p: nat, i: nat, call: Call, q: nat, j: nat)
    requires p <= q < |route.snapshots| && Usable(route.snapshots[q], route.req, route.now, route.adapters)
    requires j < |route.snapshots[q].credentials| && (p == q ==> i <= j)
    requires route.snapshots[q].credentials[j] !in call.unavailable
    ensures var trace, c := Attempts(route, p, i, call), route.snapshots[q].credentials[j];
      Made(trace, q, c) || Forestalled(trace, q, c)
    decreases |route.snapshots| - p, |route.snapshots[p].credentials| - i
  {
    var s, c := route.snapshots[p], route.snapshots[q].credentials[j];
    if !Usable(s, route.req, route.now, route.adapters) || i >= |s.credentials| {
      Reached(route, p + 1, 0, call, q, j);
    } else if s.credentials[i] in call.unavailable {
      Reached(route, p, i + 1, call, q, j);
    } else {
      var a := Attempt(p, s.credentials[i], route.answers(call.attempts));
      var trace := Attempts(route, p, i, call);
      assert trace[0] == a;
      if a.place == q && a.credential == c {
        assert Made(trace, q, c);
      } else if Ends(a) || (Leaves(a) && p == q) || (FailedForNow(a) && a.credential == c) {
        assert Forestalled(trace, q, c);
      } else if Leaves(a) {
        Reached(route, p + 1, 0, After(call, a), q, j);
        ReachedCons(a, Attempts(route, p + 1, 0, After(call, a)), q, c);
      } else {
        Reached(route, p, i + 1, After(call, a), q, j);
        ReachedCons(a, Attempts(route, p, i + 1, After(call, a)), q, c);
      }
    }
  }

  lemma ReachedCons(a: Attempt, rest: seq<Attempt>, q: nat, c: string)
    requires Made(rest, q, c) || Forestalled(rest, q, c)
    ensures Made([a] + rest, q, c) || Forestalled([a] + rest, q, c)
  {
    var trace := [a] + rest;
    assert forall k :: 0 <= k < |rest| ==> trace[k + 1] == rest[k];
  }

  // ---------------------------------------------------------------- counting

  function Times(trace: seq<Attempt>, credential: string): nat {
    if trace == [] then 0
    else Times(trace[..|trace| - 1], credential) + (if trace[|trace| - 1].credential == credential then 1 else 0)
  }

  /** Each credential's selection count rises by exactly its attempts, and a credential that was not
      tried keeps its row. */
  lemma {:induction false} CountsRiseByAttempts(rows: HealthRows, trace: seq<Attempt>, now: int, c: string)
    ensures HealthOf(RowsAfter(rows, trace, now), c).selectionCount
            == HealthOf(rows, c).selectionCount + Times(trace, c)
    ensures Times(trace, c) == 0 ==> HealthOf(RowsAfter(rows, trace, now), c) == HealthOf(rows, c)
  {
    if trace != [] {
      CountsRiseByAttempts(rows, trace[..|trace| - 1], now, c);
    }
  }

  function TotalCount(rows: HealthRows, ids: seq<string>): nat {
    if ids == [] then 0
    else TotalCount(rows, ids[..|ids| - 1]) + HealthOf(rows, ids[|ids| - 1]).selectionCount
  }

  /** Over any list of distinct credentials that holds those tried, the total rise is the number of
      primary attempts. */
  lemma {:induction false} AttemptsAreTheTotalRise(rows: HealthRows, trace: seq<Attempt>, now: int, ids: seq<string>)
    requires Distinct(ids)
    requires forall k :: 0 <= k < |trace| ==> trace[k].credential in ids
    ensures TotalCount(RowsAfter(rows, trace, now), ids) == TotalCount(rows, ids) + |trace|
  {
    if trace != [] {
      var rest, a := trace[..|trace| - 1], trace[|trace| - 1];
      AttemptsAreTheTotalRise(rows, rest, now, ids);
      var before := RowsAfter(rows, rest, now);
      var i :| 0 <= i < |ids| && ids[i] == a.credential;
      OneRiseInTotal(before, ids, i, Answered(Selected(HealthOf(before, a.credential)), a.answer, now));
    }
  }

  lemma {:induction false} OneRiseInTotal(rows: HealthRows, ids: seq<string>, i: nat, health: Health)
    requires Distinct(ids)
    requires i < |ids| && health.selectionCount == HealthOf(rows, ids[i]).selectionCount + 1
    ensures TotalCount(rows[ids[i] := health], ids) == TotalCount(rows, ids) + 1
  {
    var rest := ids[..|ids| - 1];
    if i == |rest| {
      OthersInTotal(rows, rest, ids[i], health);
    } else {
      OneRiseInTotal(rows, rest, i, health);
    }
  }

  lemma {:induction false} OthersInTotal(rows: HealthRows, ids: seq<string>, id: string, health: Health)
    requires id !in ids
    ensures TotalCount(rows[id := health], ids) == TotalCount(rows, ids)
  {
    if ids != [] {
      OthersInTotal(rows, ids[..|ids| - 1], id, health);
    }
  }

  /** What one more attempt leaves in its credential's row, and in no other: it is counted; a success
      clears the failures; AUTH disables for good; RATE_LIMIT and TRANSIENT cool down for what the
      provider asks, else for thirty seconds; other errors leave no mark. */
  lemma AttemptWrites(rows: HealthRows, trace: seq<Attempt>, a: Attempt, now: int, id: string)
    ensures var (before, after) := (HealthOf(RowsAfter(rows, trace, now), id),
                                    HealthOf(RowsAfter(rows, trace + [a], now), id));
      if id != a.credential then after == before
      else
        && after.selectionCount == before.selectionCount + 1
        && after.disabled == (before.disabled || FailedAs(a, {Auth}))
        && after.failureCount == (if a.answer.Success? then 0
                                  else before.failureCount
                                       + (if FailedAs(a, {Auth, RateLimit, Transient}) then 1 else 0))
        && after.lastError == (if a.answer.Success? then None
                               else if FailedAs(a, {Auth, RateLimit, Transient}) then Some(a.answer.failure.errorClass)
                               else before.lastError)
        && after.cooldownUntil == (if FailedAs(a, {RateLimit, Transient})
                                   then Some(now + SecondsOut(a.answer.failure.retryAfter)) else before.cooldownUntil)
  {
    assert (trace + [a])[..|trace|] == trace;
  }

  function SecondsOut(retryAfter: Option<nat>): nat {
    if retryAfter == None || retryAfter == Some(0) then 30 else retryAfter.value
  }

  /** A missing row keeps nobody out. */
  lemma EligibleMeans(c: Credential, rows: HealthRows, provider: string, now: int)
    ensures Eligible(c, rows, provider, now)
            <==> c.active && c.provider == provider
                 && (c.id in rows ==>
                       !rows[c.id].disabled
                       && (rows[c.id].cooldownUntil.Some? ==> rows[c.id].cooldownUntil.value <= now))
  {
  }

  /** A credential whose last attempt in the call failed retryably is not eligible again before its
      cooldown ends; after an AUTH failure it never is. */
  lemma FailedIsNotEligible(rows: HealthRows, trace: seq<Attempt>, now: int, k: nat, c: Credential, later: int)
    requires NeverAgain(trace) && k < |trace| && FailedForNow(trace[k]) && trace[k].credential == c.id
    requires FailedAs(trace[k], {Auth}) || later < now + SecondsOut(trace[k].answer.failure.retryAfter)
    ensures !Eligible(c, RowsAfter(rows, trace, now), c.provider, later)
  {
    StaysFailed(rows, trace, now, k, |trace|);
  }

  lemma {:induction false} StaysFailed(rows: HealthRows, trace: seq<Attempt>, now: int, k: nat, n: nat)
    requires NeverAgain(trace) && k < n <= |trace| && FailedForNow(trace[k])
    ensures var health := HealthOf(RowsAfter(rows, trace[..n], now), trace[k].credential);
      if trace[k].answer.failure.errorClass.Auth? then health.disabled
      else health.cooldownUntil == Some(now + CooldownSeconds(trace[k].answer.failure))
    decreases n
  {
    assert trace[..n][..n - 1] == trace[..n - 1];
    if n > k + 1 {
      StaysFailed(rows, trace, now, k, n - 1);
      assert trace[n - 1].credential != trace[k].credential;
    }
  }

  // ---------------------------------------------------------------- fairness

  function Ids(credentials: seq<Credential>): seq<string> {
    seq(|credentials|, i requires 0 <= i < |credentials| => credentials[i].id)
  }

  /** A call whose first candidate is usable and offers the eligible credentials in order, and whose
      first attempt succeeds; all credentials are eligible. */
  ghost predicate ServedAtOnce(route: Route, credentials: seq<Credential>, rows: HealthRows, provider: string) {
    && (forall c :: c in credentials ==> Eligible(c, rows, provider, route.now))
    && |route.snapshots| > 0 && Usable(route.snapshots[0], route.req, route.now, route.adapters)
    && route.snapshots[0].credentials == Ids(EligibleInOrder(credentials, rows, provider, route.now))
    && route.answers(0).Success?
  }

  /** The rows after calls that start from no rows at all. */
  ghost function RowsAfterCalls(calls: seq<Route>): HealthRows {
    if |calls| == 0 then map[]
    else
      var last := calls[|calls| - 1];
      RowsAfter(RowsAfterCalls(calls[..|calls| - 1]), AttemptsOf(last), last.now)
  }

  ghost predicate AllServedAtOnce(calls: seq<Route>, credentials: seq<Credential>, provider: string) {
    forall n :: 0 <= n < |calls| ==> ServedAtOnce(calls[n], credentials, RowsAfterCalls(calls[..n]), provider)
  }

  /** `c` comes first among `credentials`. */
  predicate First(c: Credential, credentials: seq<Credential>, rows: HealthRows) {
    c in credentials && forall d :: d in credentials ==> LoadLe(c, d, rows)
  }

  /** Such a call makes one attempt, with the least loaded credential, and counts it there alone. */
  lemma ServedByTheFirst(route: Route, credentials: seq<Credential>, rows: HealthRows, provider: string)
    returns (pick: Credential)
    requires credentials != [] && ServedAtOnce(route, credentials, rows, provider)
    ensures First(pick, credentials, rows) && AttemptsOf(route) == [Attempt(0, pick.id, Success)]
    ensures forall id :: HealthOf(RowsAfter(rows, AttemptsOf(route), route.now), id).selectionCount
                         == HealthOf(rows, id).selectionCount + (if id == pick.id then 1 else 0)
  {
    pick := FirstEligible(credentials, rows, provider, route.now);
    var ids := route.snapshots[0].credentials;
    assert ids[0] == pick.id && Attempts(route, 0, 0, START) == [Attempt(0, ids[0], Success)];
    forall id {
      OneServed(rows, pick.id, route.now, id);
    }
  }

  lemma FirstEligible(credentials: seq<Credential>, rows: HealthRows, provider: string, now: int)
    returns (pick: Credential)
    requires credentials != [] && forall c :: c in credentials ==> Eligible(c, rows, provider, now)
    ensures var chosen := EligibleInOrder(credentials, rows, provider, now); chosen != [] && chosen[0] == pick
    ensures First(pick, credentials, rows)
  {
    EligibleAreInOrder(credentials, rows, provider, now);
    var chosen := EligibleInOrder(credentials, rows, provider, now);
    assert credentials[0] in chosen;
    pick := chosen[0];
    LoadLeItself(pick, rows);
    forall d | d in credentials ensures LoadLe(pick, d, rows) {
      var k :| 0 <= k < |chosen| && chosen[k] == d;
    }
  }

  lemma OneServed(rows: HealthRows, credential: string, now: int, id: string)
    ensures HealthOf(RowsAfter(rows, [Attempt(0, credential, Success)], now), id).selectionCount
            == HealthOf(rows, id).selectionCount + (if id == credential then 1 else 0)
  {
    var trace := [Attempt(0, credential, Success)];
    assert trace[..0] == [];
  }

  lemma LoadLeItself(c: Credential, rows: HealthRows)
    ensures LoadLe(c, c, rows)
  {
    TextLeTotal(c.id, c.id);
  }

  /** `a` is at most one selection ahead of the share of `b`. */
  predicate Fair(rows: HealthRows, a: Credential, b: Credential) {
    HealthOf(rows, a.id).selectionCount * b.weight <= HealthOf(rows, b.id).selectionCount * a.weight + b.weight
  }

  /** Counts stay proportional to weights: no credential is ever more than one selection ahead of any
      other's share. */
  lemma {:induction false} SelectionIsFair(
    calls: seq<Route>, credentials: seq<Credential>, provider: string, a: Credential, b: Credential)
    requires forall i, j :: 0 <= i < j < |credentials| ==> credentials[i].id != credentials[j].id
    requires a in credentials && b in credentials && AllServedAtOnce(calls, credentials, provider)
    ensures Fair(RowsAfterCalls(calls), a, b)
  {
    if |calls| > 0 && a != b {
      var rest, last := calls[..|calls| - 1], calls[|calls| - 1];
      ServedBefore(calls, credentials, provider);
      SelectionIsFair(rest, credentials, provider, a, b);
      OneCallStaysFair(last, credentials, RowsAfterCalls(rest), provider, a, b);
    }
  }

  lemma OneCallStaysFair(
    route: Route, credentials: seq<Credential>, rows: HealthRows, provider: string, a: Credential, b: Credential)
    requires forall i, j :: 0 <= i < j < |credentials| ==> credentials[i].id != credentials[j].id
    requires a in credentials && b in credentials && a != b && ServedAtOnce(route, credentials, rows, provider)
    requires Fair(rows, a, b)
    ensures Fair(RowsAfter(rows, AttemptsOf(route), route.now), a, b)
  {
    var pick := ServedByTheFirst(route, credentials, rows, provider);
    SameIdSame(credentials, pick, a);
    SameIdSame(credentials, pick, b);
    assert pick == a ==> LoadLe(a, b, rows);
    OnePickStaysFair(HealthOf(rows, a.id).selectionCount, HealthOf(rows, b.id).selectionCount,
                     a.weight, b.weight, pick == a, pick == b);
  }

  lemma ServedBefore(calls: seq<Route>, credentials: seq<Credential>, provider: string)
    requires |calls| > 0 && AllServedAtOnce(calls, credentials, provider)
    ensures AllServedAtOnce(calls[..|calls| - 1], credentials, provider)
  {
    var rest := calls[..|calls| - 1];
    forall n | 0 <= n < |rest| ensures ServedAtOnce(rest[n], credentials, RowsAfterCalls(rest[..n]), provider) {
      assert rest[..n] == calls[..n];
    }
  }

  lemma SameIdSame(credentials: seq<Credential>, a: Credential, b: Credential)
    requires forall i, j :: 0 <= i < j < |credentials| ==> credentials[i].id != credentials[j].id
    requires a in credentials && b in credentials
    ensures a.id == b.id ==> a == b
  {
  }

  /** The less loaded of two may take one more. */
  lemma OnePickStaysFair(m: nat, n: nat, v: nat, w: nat, first: bool, second: bool)
    requires v >= 1 && w >= 1 && m * w <= n * v + w && !(first && second)
    requires first ==> m as real / v as real <= n as real / w as real
    ensures (if first then m + 1 else m) * w <= (if second then n + 1 else n) * v + w
  {
    if first {
      RatioLe(m, n, v, w);
    }
  }

  lemma RatioLe(m: nat, n: nat, v: nat, w: nat)
    requires v >= 1 && w >= 1 && m as real / v as real <= n as real / w as real
    ensures m * w <= n * v
  {
    var x, y := m as real / v as real, n as real / w as real;
    assert x * v as real == m as real && y * w as real == n as real;
    assert (m * w) as real == x * (v as real * w as real);
    assert (n * v) as real == y * (v as real * w as real);
  }
}
