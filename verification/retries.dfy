/**
 How the retry loop of `_copiler` plays out, attempt by attempt. The service
 calls of an invocation that is not settled by the cache are numbered: 0 is
 the clarity check, 1 the first generation, 2 its safety check, 3 the second
 generation, 4 its safety check.
 */
module Retries {
  import opened Wrappers
  import opened Strings
  import opened CallableName
  import opened Oracle
  import opened Errors
  import opened Safety
  import opened Copiler

  /** The invocation goes to the service and the specification is judged clear. */
  predicate Proceeds(specification: string, options: Options, env: Environment, cache: Cache) {
    && env.parse(specification).Some?
    && !Settled(specification, options, env.parse, cache)
    && !StartsWith(env.service(0, ClarityRequest(specification)), "UNCLEAR")
  }

  /** The name and cache path of the specification's callable. */
  function SpecName(specification: string, env: Environment): Option<string>
    requires env.parse(specification).Some?
  {
    CallableNameOf(env.parse(specification).value)
  }

  /** One attempt on a candidate that passes the gate: its fate is decided by loading it alone. */
  lemma VettedAttempt(specification: string, name: Option<string>, path: string, lists: Denylists, allow: Allowances,
                      env: Environment, cache: Cache, calls: seq<Request>)
    requires Vetted(Candidate(specification, env, |calls|), lists, allow, env.parse, env.service, |calls| + 1)
    ensures var s := Candidate(specification, env, |calls|);
            var after := calls + [GenerateRequest(specification), SafetyRequest(s)];
            Attempt(specification, name, path, lists, allow, env, cache, calls)
              == match SourceToObject(s, env.parse, env.exec)
                 case Loaded(c, defined) => Finished(Run(Returned(Some(c)), WriteCopiled(cache, path, name, c.source, defined), after))
                 case ModuleMissing(m) => Finished(Run(Raised(NeedsModule(m)), cache, after))
                 case LoadFailed => Retry(after)
  {
    var s := Candidate(specification, env, |calls|);
    var review := ReviewSafety(s, lists, allow, env.parse, env.service, |calls| + 1);
    assert review == Review(None, [SafetyRequest(s)]);
    assert calls + [GenerateRequest(specification)] + review.calls == calls + [GenerateRequest(specification), SafetyRequest(s)];
  }

  /** The two calls of an attempt whose generation is call `k` and whose candidate reached the safety check. */
  function Tried(specification: string, env: Environment, k: nat): seq<Request> {
    [GenerateRequest(specification), SafetyRequest(Candidate(specification, env, k))]
  }

  /** The calls after one more attempt whose candidate reached the safety check. */
  function AfterAttempt(calls: seq<Request>, specification: string, env: Environment): seq<Request> {
    calls + Tried(specification, env, |calls|)
  }

  /** A vetted candidate that fails to load costs one try. */
  lemma RetryOnLoadFailure(specification: string, name: Option<string>, path: string, lists: Denylists, allow: Allowances,
                           env: Environment, cache: Cache, calls: seq<Request>, tries: nat)
    requires tries < MaxTries
    requires var s := Candidate(specification, env, |calls|);
             Vetted(s, lists, allow, env.parse, env.service, |calls| + 1) && SourceToObject(s, env.parse, env.exec) == LoadFailed
    ensures Attempts(specification, name, path, lists, allow, env, cache, calls, tries)
              == Attempts(specification, name, path, lists, allow, env, cache, AfterAttempt(calls, specification, env), tries + 1)
  {
    VettedAttempt(specification, name, path, lists, allow, env, cache, calls);
  }

  /** A vetted candidate that loads ends the loop: it is returned and cached. */
  lemma StopOnLoad(specification: string, name: Option<string>, path: string, lists: Denylists, allow: Allowances,
                   env: Environment, cache: Cache, calls: seq<Request>, tries: nat, c: Callable, defined: set<string>)
    requires tries < MaxTries
    requires var s := Candidate(specification, env, |calls|);
             Vetted(s, lists, allow, env.parse, env.service, |calls| + 1) && SourceToObject(s, env.parse, env.exec) == Loaded(c, defined)
    ensures Attempts(specification, name, path, lists, allow, env, cache, calls, tries)
              == Run(Returned(Some(c)), WriteCopiled(cache, path, name, c.source, defined), AfterAttempt(calls, specification, env))
  {
    VettedAttempt(specification, name, path, lists, allow, env, cache, calls);
  }

  /** A vetted candidate that needs a missing module ends the loop with that error. */
  lemma StopOnMissingModule(specification: string, name: Option<string>, path: string, lists: Denylists, allow: Allowances,
                            env: Environment, cache: Cache, calls: seq<Request>, tries: nat, m: string)
    requires tries < MaxTries
    requires var s := Candidate(specification, env, |calls|);
             Vetted(s, lists, allow, env.parse, env.service, |calls| + 1) && SourceToObject(s, env.parse, env.exec) == ModuleMissing(m)
    ensures Attempts(specification, name, path, lists, allow, env, cache, calls, tries)
              == Run(Raised(NeedsModule(m)), cache, AfterAttempt(calls, specification, env))
  {
    VettedAttempt(specification, name, path, lists, allow, env, cache, calls);
  }

  /** Whatever the gate raises ends the loop with that error; the loop's `except` never sees it. */
  lemma StopOnGateError(specification: string, name: Option<string>, path: string, lists: Denylists, allow: Allowances,
                        env: Environment, cache: Cache, calls: seq<Request>, tries: nat)
    requires tries < MaxTries
    requires ReviewSafety(Candidate(specification, env, |calls|), lists, allow, env.parse, env.service, |calls| + 1).error.Some?
    ensures var review := ReviewSafety(Candidate(specification, env, |calls|), lists, allow, env.parse, env.service, |calls| + 1);
            Attempts(specification, name, path, lists, allow, env, cache, calls, tries)
              == Run(Raised(review.error.value), cache, calls + [GenerateRequest(specification)] + review.calls)
  {
  }

  /** The loop from the start, after a clear specification. */
  lemma RegenerateStarts(specification: string, options: Options, lists: Denylists, env: Environment, cache: Cache)
    requires Proceeds(specification, options, env, cache)
    ensures var name := SpecName(specification, env);
            Copile(specification, options, lists, env, cache)
              == Attempts(specification, name, CachePath(name), lists, AllowancesOf(options), env, cache, [ClarityRequest(specification)], 0)
  {
  }

  /**
   A first candidate that the gate rejects, for whatever reason, ends the
   invocation with the gate's error: no second candidate is asked for.
   */
  lemma GateErrorNotRetried(specification: string, options: Options, lists: Denylists, env: Environment, cache: Cache)
    requires Proceeds(specification, options, env, cache)
    requires ReviewSafety(Candidate(specification, env, 1), lists, AllowancesOf(options), env.parse, env.service, 2).error.Some?
    ensures var review := ReviewSafety(Candidate(specification, env, 1), lists, AllowancesOf(options), env.parse, env.service, 2);
            Copile(specification, options, lists, env, cache)
              == Run(Raised(review.error.value), cache, [ClarityRequest(specification)] + [GenerateRequest(specification)] + review.calls)
  {
    var name := SpecName(specification, env);
    RegenerateStarts(specification, options, lists, env, cache);
    StopOnGateError(specification, name, CachePath(name), lists, AllowancesOf(options), env, cache, [ClarityRequest(specification)], 0);
  }

  /**
   A candidate that passes the module scan but does not parse raises at
   once: the parse in the function scan lies outside the loop's `try`, so
   the second try is never made.
   */
  lemma UnparsableCandidateNotRetried(specification: string, options: Options, lists: Denylists, env: Environment, cache: Cache)
    requires Proceeds(specification, options, env, cache)
    requires var s := Candidate(specification, env, 1);
             ModuleViolations(s, lists.modules, AsList(options.moduleWhitelist)) == {} && env.parse(s).None?
    ensures Copile(specification, options, lists, env, cache)
              == Run(Raised(CandidateSyntax(Candidate(specification, env, 1))), cache,
                     [ClarityRequest(specification), GenerateRequest(specification)])
  {
    var name := SpecName(specification, env);
    var allow := AllowancesOf(options);
    var clarity := [ClarityRequest(specification)];
    assert Attempt(specification, name, CachePath(name), lists, allow, env, cache, clarity)
             == Finished(Run(Raised(CandidateSyntax(Candidate(specification, env, 1))), cache, clarity + [GenerateRequest(specification)]));
  }

  /** The calls of the first two attempts when both candidates reach the safety check. */
  function TwoAttempts(specification: string, env: Environment): seq<Request> {
    [ClarityRequest(specification)] + Tried(specification, env, 1) + Tried(specification, env, 3)
  }

  lemma TwoAttemptsCalls(specification: string, env: Environment)
    ensures |AfterAttempt([ClarityRequest(specification)], specification, env)| == 3
    ensures AfterAttempt(AfterAttempt([ClarityRequest(specification)], specification, env), specification, env)
              == TwoAttempts(specification, env)
  {
    var calls1 := AfterAttempt([ClarityRequest(specification)], specification, env);
    assert |calls1| == 1 + |Tried(specification, env, 1)| == 3;
  }

  /**
   A first candidate that passes the gate but fails to load is followed by a
   second one; when that one loads, it is returned and cached.
   */
  lemma SecondAttemptSucceeds(specification: string, options: Options, lists: Denylists, env: Environment, cache: Cache,
                              c: Callable, defined: set<string>)
    requires Proceeds(specification, options, env, cache)
    requires var s1 := Candidate(specification, env, 1);
             Vetted(s1, lists, AllowancesOf(options), env.parse, env.service, 2) && SourceToObject(s1, env.parse, env.exec) == LoadFailed
    requires var s2 := Candidate(specification, env, 3);
             Vetted(s2, lists, AllowancesOf(options), env.parse, env.service, 4) && SourceToObject(s2, env.parse, env.exec) == Loaded(c, defined)
    ensures var name := SpecName(specification, env);
            Copile(specification, options, lists, env, cache)
              == Run(Returned(Some(c)), WriteCopiled(cache, CachePath(name), name, c.source, defined), TwoAttempts(specification, env))
  {
    var name := SpecName(specification, env);
    var path := CachePath(name);
    var allow := AllowancesOf(options);
    var calls0 := [ClarityRequest(specification)];
    var calls1 := AfterAttempt(calls0, specification, env);
    var done := Run(Returned(Some(c)), WriteCopiled(cache, path, name, c.source, defined), TwoAttempts(specification, env));
    assert Attempts(specification, name, path, lists, allow, env, cache, calls1, 1) == done by {
      TwoAttemptsCalls(specification, env);
      StopOnLoad(specification, name, path, lists, allow, env, cache, calls1, 1, c, defined);
    }
    assert Attempts(specification, name, path, lists, allow, env, cache, calls0, 0)
             == Attempts(specification, name, path, lists, allow, env, cache, calls1, 1) by {
      RetryOnLoadFailure(specification, name, path, lists, allow, env, cache, calls0, 0);
    }
    RegenerateStarts(specification, options, lists, env, cache);
  }


  /**
   Two candidates that pass the gate but fail to load use up the tries: the
   invocation returns `None` and the cache is unchanged.
   */
  lemma GivesUpAfterTwoLoadFailures(specification: string, options: Options, lists: Denylists, env: Environment, cache: Cache)
    requires Proceeds(specification, options, env, cache)
    requires var s1 := Candidate(specification, env, 1);
             Vetted(s1, lists, AllowancesOf(options), env.parse, env.service, 2) && SourceToObject(s1, env.parse, env.exec) == LoadFailed
    requires var s2 := Candidate(specification, env, 3);
             Vetted(s2, lists, AllowancesOf(options), env.parse, env.service, 4) && SourceToObject(s2, env.parse, env.exec) == LoadFailed
    ensures Copile(specification, options, lists, env, cache) == Run(Returned(None), cache, TwoAttempts(specification, env))
  {
    var name := SpecName(specification, env);
    var calls0 := [ClarityRequest(specification)];
    var calls1 := AfterAttempt(calls0, specification, env);
    TwoAttemptsCalls(specification, env);
    RegenerateStarts(specification, options, lists, env, cache);
    RetryOnLoadFailure(specification, name, CachePath(name), lists, AllowancesOf(options), env, cache, calls0, 0);
    RetryOnLoadFailure(specification, name, CachePath(name), lists, AllowancesOf(options), env, cache, calls1, 1);
  }

  /** A missing module ends the loop at once, without a second try. */
  lemma MissingModuleNotRetried(specification: string, options: Options, lists: Denylists, env: Environment, cache: Cache, m: string)
    requires Proceeds(specification, options, env, cache)
    requires var s1 := Candidate(specification, env, 1);
             Vetted(s1, lists, AllowancesOf(options), env.parse, env.service, 2) && env.exec(s1) == ImportFailed(m)
    ensures Copile(specification, options, lists, env, cache)
              == Run(Raised(NeedsModule(m)), cache, [ClarityRequest(specification)] + Tried(specification, env, 1))
  {
    var name := SpecName(specification, env);
    var calls0 := [ClarityRequest(specification)];
    assert SourceToObject(Candidate(specification, env, 1), env.parse, env.exec) == ModuleMissing(m);
    RegenerateStarts(specification, options, lists, env, cache);
    StopOnMissingModule(specification, name, CachePath(name), lists, AllowancesOf(options), env, cache, calls0, 0, m);
  }
}
