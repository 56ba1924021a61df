/** The ladder of visual AI requests: from strict to bare parameters, with bounded retries. */
module VisualLadder {
  import opened Text

  datatype TokenKey = MaxTokens | MaxCompletionTokens

  datatype Effort = Low | Medium | High | NoThinking

  /** One set of request parameters; messages, model and `stream` never vary. */
  datatype Stage = Stage(tokens: map<TokenKey, int>, temperature: bool, jsonFormat: bool, effort: Option<Effort>,
                         thinkingOff: bool)

  const TOKENS_CAP := 4096

  // ---------- building the ladder ----------

  function Bare(prefersCompletion: bool, temperature: bool, maxTokens: int): Stage
  {
    Stage(map[(if prefersCompletion then MaxCompletionTokens else MaxTokens) := maxTokens],
          !prefersCompletion && temperature, false, None, false)
  }

  function Build(prefersCompletion: bool, temperature: bool, maxTokens: int, expectJson: bool,
                 effort: Option<Effort>): seq<Stage>
  {
    var bare := Bare(prefersCompletion, temperature, maxTokens);
    var stages :=
      if expectJson && effort.Some? then
        [bare.(jsonFormat := true, effort := effort), bare.(effort := effort)]
        + (if effort.value.NoThinking? then [bare.(jsonFormat := true, thinkingOff := true), bare.(thinkingOff := true)]
          else [])
        + [bare.(jsonFormat := true)]
      else if expectJson then [bare.(jsonFormat := true)]
      else if effort == Some(NoThinking) then [bare.(effort := effort), bare.(thinkingOff := true)]
      else if effort.Some? then [bare.(effort := effort)]
      else [];
    if stages == [] || stages[|stages| - 1] != bare then stages + [bare] else stages
  }

  /** How many optional parameters a request carries beyond the bare one. */
  function Extras(s: Stage): nat
  {
    (if s.jsonFormat then 1 else 0) + (if s.effort.Some? then 1 else 0) + (if s.thinkingOff then 1 else 0)
  }

  /** The same single token key with the same budget everywhere, and the same temperature setting. */
  ghost predicate Uniform(stages: seq<Stage>, key: TokenKey, budget: int, temperature: bool)
  {
    forall i :: 0 <= i < |stages| ==> stages[i].tokens == map[key := budget] && stages[i].temperature == temperature
  }

  /** How far down the ladder a request belongs: effort, then the switch for thinking, then neither; JSON mode first. */
  function Level(s: Stage): nat
  {
    (if s.effort.Some? then 0 else if s.thinkingOff then 2 else 4) + (if s.jsonFormat then 0 else 1)
  }

  /** The levels a request wants to try: JSON mode only if JSON is expected, an effort only if one is asked for. */
  predicate Wanted(level: nat, expectJson: bool, effort: Option<Effort>)
  {
    && level < 6
    && (level % 2 == 0 ==> expectJson)
    && (level < 2 ==> effort.Some?)
    && (2 <= level < 4 ==> effort == Some(NoThinking))
  }

  predicate HasLevel(stages: seq<Stage>, level: nat)
  {
    exists i :: 0 <= i < |stages| && Level(stages[i]) == level
  }

  /** The parameters asked for are those of the first request, and no rung ever adds another. */
  predicate Asks(first: Stage, expectJson: bool, effort: Option<Effort>)
  {
    first.jsonFormat == expectJson && first.effort == effort && !first.thinkingOff
  }

  /** A rung is of a wanted level, and it varies the bare request in nothing but what its level says. */
  predicate RungOk(s: Stage, bare: Stage, expectJson: bool, effort: Option<Effort>)
  {
    && Wanted(Level(s), expectJson, effort)
    && s.tokens == bare.tokens && s.temperature == bare.temperature
    && (s.effort == None || (s.effort == effort && !s.thinkingOff))
  }

  lemma RungLaw(prefersCompletion: bool, temperature: bool, maxTokens: int, expectJson: bool, effort: Option<Effort>,
                i: nat)
    requires i < |Build(prefersCompletion, temperature, maxTokens, expectJson, effort)|
    ensures var stages := Build(prefersCompletion, temperature, maxTokens, expectJson, effort);
      && RungOk(stages[i], Bare(prefersCompletion, temperature, maxTokens), expectJson, effort)
      && (i > 0 ==> Level(stages[i - 1]) < Level(stages[i]))
  {
  }

  lemma {:induction false} LevelsRise(stages: seq<Stage>, i: nat, j: nat)
    requires i < j < |stages| && forall k :: 0 < k < |stages| ==> Level(stages[k - 1]) < Level(stages[k])
    ensures Level(stages[i]) < Level(stages[j])
    decreases j
  {
    assert Level(stages[j - 1]) < Level(stages[j]);
    if i < j - 1 { LevelsRise(stages, i, j - 1); }
  }

  /**
   * The ladder starts with the requested parameters and has one to six rungs, each of a wanted level, from the
   * strictest down to the bare request; all rungs share the token key, the budget and the temperature.
   */
  lemma BuildLaw(prefersCompletion: bool, temperature: bool, maxTokens: int, expectJson: bool, effort: Option<Effort>)
    ensures var stages := Build(prefersCompletion, temperature, maxTokens, expectJson, effort);
      && 1 <= |stages| <= 6
      && Asks(stages[0], expectJson, effort) && Extras(stages[|stages| - 1]) == 0
      && Uniform(stages, if prefersCompletion then MaxCompletionTokens else MaxTokens, maxTokens,
                 !prefersCompletion && temperature)
      && (forall i :: 0 <= i < |stages| ==>
        RungOk(stages[i], Bare(prefersCompletion, temperature, maxTokens), expectJson, effort))
      && (forall i, j :: 0 <= i < j < |stages| ==> Level(stages[i]) < Level(stages[j]))
  {
    var stages := Build(prefersCompletion, temperature, maxTokens, expectJson, effort);
    forall i | 0 <= i < |stages|
      ensures RungOk(stages[i], Bare(prefersCompletion, temperature, maxTokens), expectJson, effort)
      ensures i > 0 ==> Level(stages[i - 1]) < Level(stages[i])
    {
      RungLaw(prefersCompletion, temperature, maxTokens, expectJson, effort, i);
    }
    forall i, j | 0 <= i < j < |stages| ensures Level(stages[i]) < Level(stages[j]) { LevelsRise(stages, i, j); }
  }

  /** Every wanted level has its rung, and no other level has one. */
  lemma LevelsComplete(prefersCompletion: bool, temperature: bool, maxTokens: int, expectJson: bool,
                       effort: Option<Effort>, level: nat)
    ensures HasLevel(Build(prefersCompletion, temperature, maxTokens, expectJson, effort), level)
      <==> Wanted(level, expectJson, effort)
  {
    var stages := Build(prefersCompletion, temperature, maxTokens, expectJson, effort);
    if Wanted(level, expectJson, effort) {
      var i :=
        if effort == Some(NoThinking) then (if expectJson then level else level / 2)
        else if effort.Some? then
          (if expectJson && level >= 4 then level - 2 else if expectJson then level else level / 4)
        else if expectJson then level - 4
        else 0;
      assert Level(stages[i]) == level;
    }
    if i :| 0 <= i < |stages| && Level(stages[i]) == level {
      RungLaw(prefersCompletion, temperature, maxTokens, expectJson, effort, i);
    }
  }

  // ---------- climbing down ----------

  /** What a call brings back; the classifiers of errors are arbitrary. */
  datatype Response =
    | Failure(tokenReject: Option<TokenKey>, temperatureReject: bool, paramReject: bool, transient: bool)
    | Success(truncated: bool)

  /** One request: on which rung, with which parameters, and its response. */
  datatype Call = Call(index: nat, stage: Stage, response: Response)

  datatype Outcome = Returned | RaisedError | RaisedTruncated(tokens: int)

  function Other(k: TokenKey): TokenKey
  {
    if k.MaxTokens? then MaxCompletionTokens else MaxTokens
  }

  function Swapped(s: Stage, rejected: TokenKey): Stage
  {
    if rejected in s.tokens then s.(tokens := (s.tokens - {rejected})[Other(rejected) := s.tokens[rejected]]) else s
  }

  function Budgeted(s: Stage, budget: int): Stage
  {
    if MaxTokens in s.tokens then s.(tokens := s.tokens[MaxTokens := budget])
    else if MaxCompletionTokens in s.tokens then s.(tokens := s.tokens[MaxCompletionTokens := budget])
    else s
  }

  method SwapToken(stages: seq<Stage>, rejected: TokenKey) returns (r: seq<Stage>, swapped: bool)
    ensures |r| == |stages| && forall i :: 0 <= i < |r| ==> r[i] == Swapped(stages[i], rejected)
    ensures swapped <==> exists i :: 0 <= i < |stages| && rejected in stages[i].tokens
  {
    r, swapped := [], false;
    for i := 0 to |stages|
      invariant |r| == i && forall j :: 0 <= j < i ==> r[j] == Swapped(stages[j], rejected)
      invariant swapped <==> exists j :: 0 <= j < i && rejected in stages[j].tokens
    {
      swapped := swapped || rejected in stages[i].tokens;
      r := r + [Swapped(stages[i], rejected)];
    }
  }

  method RemoveTemperature(stages: seq<Stage>) returns (r: seq<Stage>, removed: bool)
    ensures |r| == |stages| && forall i :: 0 <= i < |r| ==> r[i] == stages[i].(temperature := false)
    ensures removed <==> exists i :: 0 <= i < |stages| && stages[i].temperature
  {
    r, removed := [], false;
    for i := 0 to |stages|
      invariant |r| == i && forall j :: 0 <= j < i ==> r[j] == stages[j].(temperature := false)
      invariant removed <==> exists j :: 0 <= j < i && stages[j].temperature
    {
      removed := removed || stages[i].temperature;
      r := r + [stages[i].(temperature := false)];
    }
  }

  method SetBudget(stages: seq<Stage>, budget: int) returns (r: seq<Stage>)
    ensures |r| == |stages| && forall i :: 0 <= i < |r| ==> r[i] == Budgeted(stages[i], budget)
  {
    r := [];
    for i := 0 to |stages|
      invariant |r| == i && forall j :: 0 <= j < i ==> r[j] == Budgeted(stages[j], budget)
    {
      r := r + [Budgeted(stages[i], budget)];
    }
  }

  /** On a uniform ladder the in-place edits hit every rung or none, and keep the ladder uniform. */
  lemma SwapUniform(stages: seq<Stage>, swapped: seq<Stage>, rejected: TokenKey, key: TokenKey, budget: int, warm: bool)
    requires Uniform(stages, key, budget, warm) && |swapped| == |stages|
    requires forall i :: 0 <= i < |stages| ==> swapped[i] == Swapped(stages[i], rejected)
    ensures rejected == key ==> Uniform(swapped, Other(key), budget, warm)
    ensures rejected != key ==> swapped == stages
  {
    var m := map[key := budget];
    assert (m - {key})[Other(key) := budget] == map[Other(key) := budget];
    assert rejected != key ==> rejected !in m;
  }

  lemma BudgetUniform(stages: seq<Stage>, edited: seq<Stage>, newBudget: int, key: TokenKey, budget: int, warm: bool)
    requires Uniform(stages, key, budget, warm) && |edited| == |stages|
    requires forall i :: 0 <= i < |stages| ==> edited[i] == Budgeted(stages[i], newBudget)
    ensures Uniform(edited, key, newBudget, warm)
  {
    var m := map[key := budget];
    assert m[key := newBudget] == map[key := newBudget];
    assert Other(key) !in m;
  }

  function CurrentTokens(s: Stage): int
  {
    if MaxTokens in s.tokens && s.tokens[MaxTokens] != 0 then s.tokens[MaxTokens]
    else if MaxCompletionTokens in s.tokens then s.tokens[MaxCompletionTokens]
    else 0
  }

  function Max(a: int, b: int): int { if a > b then a else b }

  function Min(a: int, b: int): int { if a < b then a else b }

  /** The extras of a rung never change; only its token entry and temperature do. */
  ghost predicate SameExtras(s: Stage, t: Stage)
  {
    s.jsonFormat == t.jsonFormat && s.effort == t.effort && s.thinkingOff == t.thinkingOff
  }

  /** A request is a rung of the ladder with one token key and an allowed budget, answered by the provider. */
  ghost predicate CallOk(calls: seq<Call>, n: nat, stages: seq<Stage>, env: (nat, Stage) -> Response, limit: int)
    requires n < |calls|
  {
    var c := calls[n];
    && c.index < |stages| && SameExtras(c.stage, stages[c.index])
    && (exists key, budget :: budget <= limit && c.stage.tokens == map[key := budget])
    && (c.stage.temperature ==> stages[c.index].temperature)
    && c.response == env(n, c.stage)
  }

  /** How one request leads to the next: a changed parameter always answers the response to the previous request. */
  ghost predicate Leads(c: Call, index: nat, stage: Stage)
  {
    && (index == c.index || (index == c.index + 1 && c.response.Failure? && c.response.paramReject))
    && (stage.temperature == c.stage.temperature
      || (c.stage.temperature && c.response.Failure? && c.response.temperatureReject))
    && (stage.tokens.Keys == c.stage.tokens.Keys
      || (c.response.Failure? && c.response.tokenReject.Some? && c.response.tokenReject.value in c.stage.tokens))
    && CurrentTokens(stage)
      == (if c.response == Success(true) then Min(CurrentTokens(c.stage) * 2, TOKENS_CAP) else CurrentTokens(c.stage))
  }

  ghost predicate CallsOk(calls: seq<Call>, stages: seq<Stage>, env: (nat, Stage) -> Response, limit: int)
  {
    && (forall i :: 0 <= i < |calls| ==> CallOk(calls, i, stages, env, limit))
    && (calls != [] ==> stages != [] && calls[0].index == 0 && calls[0].stage == stages[0])
    && (forall i, j :: 0 <= i < j < |calls| ==> InOrder(calls, i, j))
    && (forall i :: 0 <= i < |calls| - 1 ==> Follows(calls, i))
  }

  /** Later requests are never made on a higher rung. */
  predicate InOrder(calls: seq<Call>, i: nat, j: nat)
    requires i < |calls| && j < |calls|
  {
    calls[i].index <= calls[j].index
  }

  /** Only an unsuccessful request is followed by another one, in answer to its response. */
  ghost predicate Follows(calls: seq<Call>, i: nat)
    requires i + 1 < |calls|
  {
    calls[i].response != Success(false) && Leads(calls[i], calls[i + 1].index, calls[i + 1].stage)
  }

  /** The ladder as edited so far. */
  ghost predicate Rungs(stages: seq<Stage>, ladder: seq<Stage>, key: TokenKey, budget: int, warm: bool)
  {
    && |stages| == |ladder| && Uniform(stages, key, budget, warm)
    && forall i :: 0 <= i < |stages| ==> SameExtras(stages[i], ladder[i])
  }

  ghost predicate Unfinished(calls: seq<Call>, index: nat)
  {
    forall i :: 0 <= i < |calls| ==> calls[i].index <= index && calls[i].response != Success(false)
  }

  /** What to do after a failed request: request again at once, start the next attempt, or pass the error on. */
  datatype Next = Again | NextAttempt | GiveUp

  /** The error handler of one failed request; each remedy it applies can be applied only a bounded number of times. */
  method AfterFailure(stages: seq<Stage>, index: nat, switches: nat, failure: Response, retriesLeft: bool,
                      ghost ladder: seq<Stage>, ghost key: TokenKey, ghost budget: int, ghost warm: bool)
    returns (edited: seq<Stage>, lower: nat, switched: nat, next: Next, ghost newKey: TokenKey, ghost stillWarm: bool)
    requires failure.Failure? && switches <= 1 && index < |stages| && Rungs(stages, ladder, key, budget, warm)
    ensures Rungs(edited, ladder, newKey, budget, stillWarm)
    ensures lower < |edited| && Leads(Call(index, stages[index], failure), lower, edited[lower])
    ensures next.Again? ==>
      || (switches == 0 && switched == 1 && failure.tokenReject == Some(key) && newKey == Other(key)
        && stillWarm == warm && lower == index)
      || (switched == switches && failure.temperatureReject && warm && !stillWarm && newKey == key && lower == index
          && !(failure.tokenReject == Some(key) && switches == 0))
      || (switched == switches && failure.paramReject && newKey == key && stillWarm == warm
        && lower == index + 1 < |stages|
          && !(failure.tokenReject == Some(key) && switches == 0) && !(failure.temperatureReject && warm))
    ensures !next.Again? ==>
      edited == stages && newKey == key && stillWarm == warm && lower == index && switched == switches
    ensures !next.Again? ==>
      && !(failure.tokenReject == Some(key) && switches == 0)
      && !(failure.temperatureReject && warm)
      && !(failure.paramReject && index < |stages| - 1)
    ensures !next.Again? ==> (next.NextAttempt? <==> failure.transient && retriesLeft)
  {
    edited, lower, switched, newKey, stillWarm := stages, index, switches, key, warm;
    if failure.tokenReject.Some? && switches < 1 {
      var swapped;
      edited, swapped := SwapToken(stages, failure.tokenReject.value);
      SwapUniform(stages, edited, failure.tokenReject.value, key, budget, warm);
      assert failure.tokenReject.value in stages[0].tokens <==> failure.tokenReject.value == key;
      if swapped {
        newKey, switched := Other(key), switches + 1;
        return edited, lower, switched, Again, newKey, stillWarm;
      }
    }
    if failure.temperatureReject {
      var removed;
      edited, removed := RemoveTemperature(edited);
      assert stages[0].temperature == warm;
      if removed {
        stillWarm := false;
        return edited, lower, switched, Again, newKey, stillWarm;
      }
      assert edited == stages;
    }
    if failure.paramReject && index < |stages| - 1 {
      lower := index + 1;
      return edited, lower, switched, Again, newKey, stillWarm;
    }
    next := if failure.transient && retriesLeft then NextAttempt else GiveUp;
  }

  /** The relaxed budget after a truncated answer. */
  method Relax(stages: seq<Stage>, index: nat, ghost ladder: seq<Stage>, ghost key: TokenKey, ghost budget: int,
               ghost warm: bool)
    returns (edited: seq<Stage>)
    requires index < |stages| && Rungs(stages, ladder, key, budget, warm)
    ensures Rungs(edited, ladder, key, Min(budget * 2, TOKENS_CAP), warm) && CurrentTokens(stages[index]) == budget
    ensures Leads(Call(index, stages[index], Success(true)), index, edited[index])
  {
    edited := SetBudget(stages, Min(CurrentTokens(stages[index]) * 2, TOKENS_CAP));
    BudgetUniform(stages, edited, Min(budget * 2, TOKENS_CAP), key, budget, warm);
  }

  /** How often the temperature was removed. */
  ghost function Cooled(before: bool, now: bool): nat
  {
    if before && !now then 1 else 0
  }

  /** The parameters a uniform ladder is tuned to. */
  datatype Tune = Tune(key: TokenKey, budget: int, warm: bool)

  /**
   * Between two requests: the ladder is uniform, and every request so far was paid for by
   * an attempt, the one token swap, the one removal of the temperature, or a step down.
   */
  ghost predicate Climbing(calls: seq<Call>, stages: seq<Stage>, ladder: seq<Stage>, attempt: nat, index: nat,
                           switches: nat, first: Tune, now: Tune)
  {
    && attempt >= 1 && index < |ladder| && switches <= 1
    && Rungs(stages, ladder, now.key, now.budget, now.warm)
    && (now.warm ==> first.warm) && now.budget <= Max(first.budget, TOKENS_CAP)
    && now.key == (if switches == 0 then first.key else Other(first.key))
    && |calls| == attempt - 1 + switches + Cooled(first.warm, now.warm) + index
    && Unfinished(calls, index)
    && (if calls == [] then index == 0 && stages[0] == ladder[0] else Leads(calls[|calls| - 1], index, stages[index]))
  }

  /** How the run ended, read off its last request. */
  ghost predicate Settled(outcome: Outcome, last: Call, requests: nat, attempts: nat, rungs: nat, firstKey: TokenKey)
  {
    match outcome
    case Returned => last.response == Success(false)
    case RaisedTruncated(tokens) =>
      last.response == Success(true) && tokens == CurrentTokens(last.stage)
        && (tokens >= TOKENS_CAP || requests >= attempts)
    case RaisedError =>
      && last.response.Failure?
      && (last.response.paramReject ==> last.index == rungs - 1)
      && (last.response.temperatureReject ==> !last.stage.temperature)
      && (last.response.tokenReject == Some(firstKey) ==> firstKey !in last.stage.tokens)
      && (last.response.transient ==> requests >= attempts)
  }

  /** One request and the handling of its answer. */
  method Request(calls: seq<Call>, stages: seq<Stage>, attempt: nat, attempts: nat, index: nat, switches: nat,
                 env: (nat, Stage) -> Response,
                 ghost ladder: seq<Stage>, ghost first: Tune, ghost now: Tune)
    returns (sent: Call, edited: seq<Stage>, lower: nat, switched: nat, next: Next, outcome: Outcome, ghost tuned: Tune)
    requires attempt <= attempts && Climbing(calls, stages, ladder, attempt, index, switches, first, now)
    ensures sent == Call(index, stages[index], env(|calls|, stages[index]))
    ensures next.Again? ==> Climbing(calls + [sent], edited, ladder, attempt, lower, switched, first, tuned)
    ensures next.Again? ==> switched > switches || (switched == switches && now.warm && !tuned.warm)
                            || (switched == switches && tuned.warm == now.warm && lower > index)
    ensures next.NextAttempt? ==>
      attempt < attempts && Climbing(calls + [sent], edited, ladder, attempt + 1, lower, switched, first, tuned)
    ensures next.GiveUp? ==> Settled(outcome, sent, |calls| + 1, attempts, |ladder|, first.key)
    ensures sent.response != Success(false) || next.GiveUp?
  {
    var request := stages[index];
    var response := env(|calls|, request);
    sent, edited, lower, switched, outcome, tuned :=
      Call(index, request, response), stages, index, switches, Returned, now;
    match response {
      case Failure(_, _, _, _) =>
        ghost var key, warm;
        edited, lower, switched, next, key, warm :=
          AfterFailure(stages, index, switches, response, attempt < attempts, ladder, now.key, now.budget, now.warm);
        tuned, outcome := Tune(key, now.budget, warm), RaisedError;
      case Success(truncated) =>
        next := GiveUp;
        if truncated {
          var tokens := CurrentTokens(request);
          outcome := RaisedTruncated(tokens);
          if attempt < attempts && tokens < TOKENS_CAP {
            edited := Relax(stages, index, ladder, now.key, now.budget, now.warm);
            tuned, next := Tune(now.key, Min(tokens * 2, TOKENS_CAP), now.warm), NextAttempt;
          }
        }
    }
  }

  /** The next request of a climbing run keeps the record of requests in order. */
  lemma ClimbGrows(calls: seq<Call>, stages: seq<Stage>, ladder: seq<Stage>, attempt: nat, index: nat, switches: nat,
                   first: Tune, now: Tune, env: (nat, Stage) -> Response, limit: int)
    requires Climbing(calls, stages, ladder, attempt, index, switches, first, now) && CallsOk(calls, ladder, env, limit)
    requires limit == Max(first.budget, TOKENS_CAP) && Uniform(ladder, first.key, first.budget, first.warm)
    ensures CallsOk(calls + [Call(index, stages[index], env(|calls|, stages[index]))], ladder, env, limit)
  {
    var more := calls + [Call(index, stages[index], env(|calls|, stages[index]))];
    forall i | 0 <= i < |more| ensures CallOk(more, i, ladder, env, limit) {
      assert i < |calls| ==> CallOk(calls, i, ladder, env, limit);
    }
    forall i, j | 0 <= i < j < |more| ensures InOrder(more, i, j) { assert j < |calls| ==> InOrder(calls, i, j); }
    forall i | 0 <= i < |more| - 1 ensures Follows(more, i) { assert i < |calls| - 1 ==> Follows(calls, i); }
  }

  /**
   * The retry loops.  `env` answers the n-th request; the answers, and so the classifiers of errors, are arbitrary.
   * The number of requests is bounded, parameters only change in answer to a response, and the run gives up
   * only when no remedy is left.  The source's `raise` after the loops cannot be reached.
   */
  method RunLadder(ladder: seq<Stage>, attempts: nat, env: (nat, Stage) -> Response, ghost first: Tune)
    returns (outcome: Outcome, calls: seq<Call>)
    requires attempts >= 1 && ladder != [] && Uniform(ladder, first.key, first.budget, first.warm)
    ensures 1 <= |calls| <= attempts + |ladder| + 1
    ensures CallsOk(calls, ladder, env, Max(first.budget, TOKENS_CAP))
    ensures Settled(outcome, calls[|calls| - 1], |calls|, attempts, |ladder|, first.key)
  {
    var stages := ladder;
    var index: nat, switches: nat := 0, 0;
    calls := [];
    ghost var now := first;
    ghost var limit := Max(first.budget, TOKENS_CAP);
    for attempt := 1 to attempts + 1
      invariant attempt <= attempts
      invariant Climbing(calls, stages, ladder, attempt, index, switches, first, now)
      invariant CallsOk(calls, ladder, env, limit)
    {
      while index < |stages|
        invariant Climbing(calls, stages, ladder, attempt, index, switches, first, now)
        invariant CallsOk(calls, ladder, env, limit)
        decreases 1 - switches, now.warm, |ladder| - index
      {
        var sent, next;
        ClimbGrows(calls, stages, ladder, attempt, index, switches, first, now, env, limit);
        var edited, lower, switched;
        sent, edited, lower, switched, next, outcome, now :=
          Request(calls, stages, attempt, attempts, index, switches, env, ladder, first, now);
        calls, stages, index, switches := calls + [sent], edited, lower, switched;
        if next.Again? { continue; }
        if next.NextAttempt? { break; }
        return outcome, calls;
      }
    }
    assert false;
  }

  /**
   * A whole visual request: the ladder has at most six rungs, so at most seven requests beyond the attempts are
   * made.
   */
  method RunVisualCompletion(prefersCompletion: bool, temperature: bool, maxTokens: int, expectJson: bool,
                             effort: Option<Effort>,
                             attempts: nat, env: (nat, Stage) -> Response)
    returns (outcome: Outcome, calls: seq<Call>)
    requires attempts >= 1
    ensures 1 <= |calls| <= attempts + 7
    ensures Asks(calls[0].stage, expectJson, effort)
    ensures calls[0].stage.temperature == (!prefersCompletion && temperature)
    ensures calls[0].stage.tokens == map[(if prefersCompletion then MaxCompletionTokens else MaxTokens) := maxTokens]
    ensures var ladder := Build(prefersCompletion, temperature, maxTokens, expectJson, effort);
      && CallsOk(calls, ladder, env, Max(maxTokens, TOKENS_CAP))
      && Settled(outcome, calls[|calls| - 1], |calls|, attempts, |ladder|,
                 if prefersCompletion then MaxCompletionTokens else MaxTokens)
  {
    BuildLaw(prefersCompletion, temperature, maxTokens, expectJson, effort);
    ghost var first :=
      Tune(if prefersCompletion then MaxCompletionTokens else MaxTokens, maxTokens, !prefersCompletion && temperature);
    outcome, calls :=
      RunLadder(Build(prefersCompletion, temperature, maxTokens, expectJson, effort), attempts, env, first);
  }
}
