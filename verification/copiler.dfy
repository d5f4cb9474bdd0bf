/**
 `_copiler`: serve a callable from its cache file, or generate it from the
 specification, vet it, load it and write it to the cache. The service, the
 parser and the interpreter are parameters; the cache directory is a map.
 */
module Copiler {
  import opened Wrappers
  import opened Strings
  import opened Syntax
  import opened CallableName
  import opened Cleaning
  import opened Oracle
  import opened Errors
  import opened Safety

  /** A whitelist argument: a single string or a list of strings. */
  datatype OneOrMany = One(item: string) | Many(items: seq<string>)

  /** `if not isinstance(x, list): x = [x]` */
  function AsList(x: OneOrMany): seq<string> {
    match x
    case One(item) => [item]
    case Many(items) => items
  }

  /** The keyword arguments of the decorator. The bare form `@copile` passes the defaults. */
  datatype Options = Options(force: bool, moduleWhitelist: OneOrMany, functionWhitelist: OneOrMany, unsafeOverrides: OneOrMany)

  function AllowancesOf(options: Options): Allowances {
    Allowances(AsList(options.moduleWhitelist), AsList(options.functionWhitelist), AsList(options.unsafeOverrides))
  }

  const CacheDirectory: string := "./copilations/"
  const CacheSuffix: string := ".co.py"

  /** How an f-string shows the callable name: `None` when there is none. */
  function NameText(name: Option<string>): string {
    match name
    case Some(n) => n
    case None => "None"
  }

  /** `'./copilations/' + f"{callable_name}.co.py"` */
  function CachePath(name: Option<string>): (r: string)
    ensures StartsWith(r, CacheDirectory) && EndsWith(r, CacheSuffix)
    ensures |r| == |CacheDirectory| + |NameText(name)| + |CacheSuffix|
  {
    CacheDirectory + NameText(name) + CacheSuffix
  }

  /** The name part of a cache path. */
  function NameOfPath(path: string): string
    requires |path| >= |CacheDirectory| + |CacheSuffix|
  {
    path[|CacheDirectory|..|path| - |CacheSuffix|]
  }

  /** The cache path gives back the name it was built from, so distinct names never share a file. */
  lemma CachePathRoundTrip(name: Option<string>)
    ensures NameOfPath(CachePath(name)) == NameText(name)
  {
    var p := CachePath(name);
    assert p == CacheDirectory + (NameText(name) + CacheSuffix);
    assert p[|CacheDirectory|..] == NameText(name) + CacheSuffix;
    assert p[|CacheDirectory|..][..|NameText(name)|] == NameText(name);
  }

  lemma CachePathInjective(a: string, b: string)
    requires CachePath(Some(a)) == CachePath(Some(b))
    ensures a == b
  {
    CachePathRoundTrip(Some(a));
    CachePathRoundTrip(Some(b));
  }

  /** A loaded callable: its name and the source that defines it. */
  datatype Callable = Callable(name: string, source: string)

  /**
   A cache file: the top-level names it binds to a truthy object, and the
   source of each. A name bound to a falsy value (`f = None`) is left out,
   since both lookups of the source test the found object for truth.
   */
  type CacheFile = map<string, string>

  /** The cache directory: the files that exist, by path. */
  type Cache = map<string, CacheFile>

  datatype Lookup = Found(callable: Callable) | NotFound | NamelessLookup

  /**
   `_get_existing_copilation`: a missing file or a missing attribute gives
   `None`; looking up `None` in an existing file raises.
   */
  function ExistingCopilation(cache: Cache, path: string, name: Option<string>): (r: Lookup)
    ensures r.Found? <==> path in cache && name.Some? && name.value in cache[path]
    ensures r.Found? ==> r.callable == Callable(name.value, cache[path][name.value])
    ensures r.NamelessLookup? <==> path in cache && name.None?
  {
    if path !in cache then NotFound
    else match name
      case None => NamelessLookup
      case Some(n) => if n in cache[path] then Found(Callable(n, cache[path][n])) else NotFound
  }

  /**
   `_write_copiled_source`, at the level of the names a file defines. The
   whole candidate text goes into the file: when the file already defines
   the specification's name, that definition is spliced out and the text
   put in its place; otherwise the text is appended. Either way the file
   then defines every top-level name of the candidate, `defined`, with the
   candidate's source.
   */
  function WriteCopiled(cache: Cache, path: string, name: Option<string>, source: string, defined: set<string>): (r: Cache)
    ensures path in r && forall n :: n in defined ==> n in r[path] && r[path][n] == source
    ensures forall p :: p != path ==> (p in r <==> p in cache) && (p in cache ==> r[p] == cache[p])
    ensures forall n :: n !in defined && name != Some(n) ==>
              (n in r[path] <==> path in cache && n in cache[path])
              && (n in r[path] ==> r[path][n] == cache[path][n])
    ensures name.Some? && name.value !in defined ==> name.value !in r[path]
  {
    var file := if path in cache then cache[path] else map[];
    var kept := if name.Some? && name.value in file then file - {name.value} else file;
    cache[path := kept + map n | n in defined :: source]
  }

  /**
   When the candidate's text defines the specification's name, a lookup of
   that name after the write finds the candidate's source under it, whichever
   callable was loaded.
   */
  lemma WriteThenLookup(cache: Cache, path: string, n: string, source: string, defined: set<string>)
    requires n in defined
    ensures ExistingCopilation(WriteCopiled(cache, path, Some(n), source, defined), path, Some(n)) == Found(Callable(n, source))
  {
  }

  /**
   When the candidate's text does not define the specification's name, the
   file no longer serves that name.
   */
  lemma RenamedCandidateNotServed(cache: Cache, path: string, n: string, source: string, defined: set<string>)
    requires n !in defined
    ensures ExistingCopilation(WriteCopiled(cache, path, Some(n), source, defined), path, Some(n)) == NotFound
  {
  }

  /**
   What `exec` of a candidate does: binds top-level names, raises
   `ModuleNotFoundError`, or raises anything else. `defined` holds the names
   bound to a truthy object; a `def` or `class` always is one.
   */
  datatype ExecOutcome = Executed(defined: set<string>) | ImportFailed(moduleName: string) | ExecFailed

  type Interpreter = string -> ExecOutcome

  /** Everything `_copiler` consults that lies outside this model. */
  datatype Environment = Environment(parse: Parser, exec: Interpreter, service: Service)

  /** The loaded callable comes with every top-level name the candidate's text defines. */
  datatype Loading = Loaded(callable: Callable, defined: set<string>) | ModuleMissing(moduleName: string) | LoadFailed

  /**
   `_source_to_object`: parse for the name, execute, then look the name up.
   A missing module surfaces as such; every other failure is alike.
   */
  function SourceToObject(source: string, parse: Parser, exec: Interpreter): (r: Loading)
    ensures r.Loaded? <==>
              && parse(source).Some? && exec(source).Executed?
              && CallableNameOf(parse(source).value).Some?
              && CallableNameOf(parse(source).value).value in exec(source).defined
    ensures r.Loaded? ==> r.callable == Callable(CallableNameOf(parse(source).value).value, source)
    ensures r.Loaded? ==> r.defined == exec(source).defined && r.callable.name in r.defined
    ensures r.ModuleMissing? <==> parse(source).Some? && exec(source).ImportFailed?
    ensures r.ModuleMissing? ==> r.moduleName == exec(source).moduleName
  {
    match parse(source)
    case None => LoadFailed
    case Some(tree) =>
      var name := CallableNameOf(tree);
      match exec(source)
      case ImportFailed(m) => ModuleMissing(m)
      case ExecFailed => LoadFailed
      case Executed(defined) =>
        if name.Some? && name.value in defined then Loaded(Callable(name.value, source), defined) else LoadFailed
  }

  /** What `_copiler` does: return a callable or `None`, or raise. */
  datatype Outcome = Returned(value: Option<Callable>) | Raised(error: CopileError)

  /** An invocation's outcome, the cache after it, and the service calls it made, in order. */
  datatype Run = Run(outcome: Outcome, cache: Cache, calls: seq<Request>)

  const MaxTries: nat := 2

  function GenerateRequest(specification: string): Request {
    Request(CopileFromSpecification, Best, specification)
  }

  /** Every generation request in `calls` is the best-tier request for `specification`. */
  predicate GeneratesOnly(calls: seq<Request>, specification: string) {
    calls == [] ||
    ((calls[0].instruction == CopileFromSpecification ==> calls[0] == GenerateRequest(specification))
     && GeneratesOnly(calls[1..], specification))
  }

  lemma {:induction false} GeneratesOnlyAppend(a: seq<Request>, b: seq<Request>, specification: string)
    ensures GeneratesOnly(a + b, specification) == (GeneratesOnly(a, specification) && GeneratesOnly(b, specification))
  {
    if a == [] {
      assert a + b == b;
    } else {
      assert (a + b)[0] == a[0];
      assert (a + b)[1..] == a[1..] + b;
      GeneratesOnlyAppend(a[1..], b, specification);
    }
  }

  /** The cleaned candidate generated by call `k`. */
  function Candidate(specification: string, env: Environment, k: nat): string {
    CleanResponse(env.service(k, GenerateRequest(specification)))
  }

  /**
   The run returned the callable `c`, generated from the reply to the
   second-to-last call, vetted by the last call, loaded, and written to the
   cache.
   */
  ghost predicate Succeeded(r: Run, specification: string, name: Option<string>, path: string, lists: Denylists,
                            allow: Allowances, env: Environment, cache: Cache)
  {
    && r.outcome.Returned? && r.outcome.value.Some?
    && var c := r.outcome.value.value;
    && |r.calls| >= 2
    && r.calls[|r.calls| - 2] == GenerateRequest(specification)
    && c.source == Candidate(specification, env, |r.calls| - 2)
    && r.calls[|r.calls| - 1] == SafetyRequest(c.source)
    && Vetted(c.source, lists, allow, env.parse, env.service, |r.calls| - 1)
    && var loading := SourceToObject(c.source, env.parse, env.exec);
    && loading.Loaded? && loading.callable == c
    && r.cache == WriteCopiled(cache, path, name, c.source, loading.defined)
  }

  /**
   `after` extends `calls` by exactly one generation request for
   `specification`, at most one safety check and no clarity check.
   */
  predicate OneMoreGeneration(calls: seq<Request>, after: seq<Request>, specification: string) {
    && |calls| < |after| && after[..|calls|] == calls
    && CountOf(after[|calls|..], CopileFromSpecification) == 1
    && CountOf(after[|calls|..], CheckForSafetyIssues) <= 1
    && CountOf(after[|calls|..], AssessSpecification) == 0
    && GeneratesOnly(after[|calls|..], specification)
  }

  /** One pass of the loop: the run ends, or the candidate failed to load and the loop goes on after `calls`. */
  datatype Step = Finished(run: Run) | Retry(calls: seq<Request>)

  /**
   One attempt after the service calls `calls`: generate, clean, vet, load.
   The gate runs outside the loop's `try`, so whatever it raises ends the
   run with that very error. A missing module ends the run too; only a
   vetted candidate that fails to load otherwise means another try.
   */
  function Attempt(specification: string, name: Option<string>, path: string, lists: Denylists, allow: Allowances,
                   env: Environment, cache: Cache, calls: seq<Request>): (s: Step)
    ensures s.Retry? ==> OneMoreGeneration(calls, s.calls, specification)
    ensures s.Finished? ==> OneMoreGeneration(calls, s.run.calls, specification)
    ensures s.Finished? ==> s.run.outcome != Returned(None)
    ensures s.Finished? && !(s.run.outcome.Returned? && s.run.outcome.value.Some?) ==> s.run.cache == cache
    ensures s.Finished? && s.run.outcome.Returned? ==> Succeeded(s.run, specification, name, path, lists, allow, env, cache)
    ensures var review := ReviewSafety(Candidate(specification, env, |calls|), lists, allow, env.parse, env.service, |calls| + 1);
            review.error.Some? ==>
              s == Finished(Run(Raised(review.error.value), cache, calls + [GenerateRequest(specification)] + review.calls))
    ensures var source := Candidate(specification, env, |calls|);
            s.Retry? <==> Vetted(source, lists, allow, env.parse, env.service, |calls| + 1)
                          && SourceToObject(source, env.parse, env.exec) == LoadFailed
  {
    var gen := GenerateRequest(specification);
    var source := Candidate(specification, env, |calls|);
    var review := ReviewSafety(source, lists, allow, env.parse, env.service, |calls| + 1);
    var after := calls + [gen] + review.calls;
    AttemptCalls(calls, specification, source, review.calls);
    if review.error.Some? then Finished(Run(Raised(review.error.value), cache, after))
    else match SourceToObject(source, env.parse, env.exec)
      case Loaded(c, defined) =>
        LoadedAttemptSucceeded(specification, name, path, lists, allow, env, cache, calls, c, defined);
        Finished(Run(Returned(Some(c)), WriteCopiled(cache, path, name, c.source, defined), after))
      case ModuleMissing(m) => Finished(Run(Raised(NeedsModule(m)), cache, after))
      case LoadFailed => Retry(after)
  }

  /**
   The retry loop of `_copiler` from attempt `tries` on, after the service
   calls `calls`: at most `MaxTries` attempts, and `None` once they are used
   up.
   */
  function Attempts(specification: string, name: Option<string>, path: string, lists: Denylists, allow: Allowances,
                    env: Environment, cache: Cache, calls: seq<Request>, tries: nat): (r: Run)
    requires tries <= MaxTries
    ensures |calls| <= |r.calls| && r.calls[..|calls|] == calls
    ensures tries < MaxTries ==> |calls| < |r.calls|
    ensures CountOf(r.calls[|calls|..], CopileFromSpecification) <= MaxTries - tries
    ensures CountOf(r.calls[|calls|..], CheckForSafetyIssues) <= MaxTries - tries
    ensures CountOf(r.calls[|calls|..], AssessSpecification) == 0
    ensures GeneratesOnly(r.calls[|calls|..], specification)
    ensures r.outcome == Returned(None) ==> CountOf(r.calls[|calls|..], CopileFromSpecification) == MaxTries - tries
    ensures !(r.outcome.Returned? && r.outcome.value.Some?) ==> r.cache == cache
    ensures r.outcome.Returned? && r.outcome.value.Some? ==> Succeeded(r, specification, name, path, lists, allow, env, cache)
    decreases MaxTries - tries
  {
    if tries == MaxTries then
      assert calls[|calls|..] == [];
      Run(Returned(None), cache, calls)
    else
      match Attempt(specification, name, path, lists, allow, env, cache, calls)
      case Finished(run) => run
      case Retry(after) =>
        var r := Attempts(specification, name, path, lists, allow, env, cache, after, tries + 1);
        LaterCalls(calls, after, r.calls, specification);
        r
  }

  /** A vetted candidate that loads makes the attempt a success. */
  lemma LoadedAttemptSucceeded(specification: string, name: Option<string>, path: string, lists: Denylists, allow: Allowances,
                               env: Environment, cache: Cache, calls: seq<Request>, c: Callable, defined: set<string>)
    requires var source := Candidate(specification, env, |calls|);
             && Vetted(source, lists, allow, env.parse, env.service, |calls| + 1)
             && SourceToObject(source, env.parse, env.exec) == Loaded(c, defined)
    ensures Succeeded(Run(Returned(Some(c)), WriteCopiled(cache, path, name, c.source, defined),
                          calls + [GenerateRequest(specification)] + [SafetyRequest(c.source)]),
                      specification, name, path, lists, allow, env, cache)
  {
    var after := calls + [GenerateRequest(specification)] + [SafetyRequest(c.source)];
    assert |after| - 2 == |calls| && after[|calls|] == GenerateRequest(specification);
    assert after[|calls| + 1] == SafetyRequest(c.source);
  }

  /** The calls one attempt adds: one generation, then at most one safety check. */
  lemma AttemptCalls(calls: seq<Request>, specification: string, source: string, review: seq<Request>)
    requires review == [] || review == [SafetyRequest(source)]
    ensures var after := calls + [GenerateRequest(specification)] + review;
            && after[..|calls|] == calls
            && CountOf(after[|calls|..], CopileFromSpecification) == 1
            && CountOf(after[|calls|..], CheckForSafetyIssues) <= 1
            && CountOf(after[|calls|..], AssessSpecification) == 0
            && GeneratesOnly(after[|calls|..], specification)
  {
    var gen := GenerateRequest(specification);
    var added := (calls + [gen] + review)[|calls|..];
    assert added == [gen] + review;
    CountOfAppend([gen], review, CopileFromSpecification);
    CountOfAppend([gen], review, AssessSpecification);
    CountOfAppend([gen], review, CheckForSafetyIssues);
    GeneratesOnlyAppend([gen], review, specification);
    SafetyChecksOnly(review, specification);
  }

  lemma {:induction false} SafetyChecksOnly(calls: seq<Request>, specification: string)
    requires forall i :: 0 <= i < |calls| ==> calls[i].instruction == CheckForSafetyIssues
    ensures CountOf(calls, CopileFromSpecification) == 0
    ensures CountOf(calls, AssessSpecification) == 0
    ensures CountOf(calls, CheckForSafetyIssues) == |calls|
    ensures GeneratesOnly(calls, specification)
  {
    if calls != [] {
      SafetyChecksOnly(calls[1..], specification);
    }
  }

  /** Counting the calls after `calls` splits at the end of the calls after `mid`. */
  lemma LaterCalls(calls: seq<Request>, mid: seq<Request>, final: seq<Request>, specification: string)
    requires |calls| <= |mid| <= |final| && mid[..|calls|] == calls && final[..|mid|] == mid
    ensures final[..|calls|] == calls
    ensures forall instruction :: CountOf(final[|calls|..], instruction)
                                    == CountOf(mid[|calls|..], instruction) + CountOf(final[|mid|..], instruction)
    ensures GeneratesOnly(final[|calls|..], specification)
              == (GeneratesOnly(mid[|calls|..], specification) && GeneratesOnly(final[|mid|..], specification))
  {
    assert final[|calls|..] == mid[|calls|..] + final[|mid|..];
    forall instruction: Instruction {
      CountOfAppend(mid[|calls|..], final[|mid|..], instruction);
    }
    GeneratesOnlyAppend(mid[|calls|..], final[|mid|..], specification);
  }

  /** The invocation is settled without asking the service: bad syntax, or an answer from the cache. */
  predicate Settled(specification: string, options: Options, parse: Parser, cache: Cache) {
    match parse(specification)
    case None => true
    case Some(tree) =>
      var name := CallableNameOf(tree);
      var existing := ExistingCopilation(cache, CachePath(name), name);
      existing.NamelessLookup? || (existing.Found? && !options.force)
  }

  /**
   The branch of `_copiler` taken when nothing is served from the cache:
   the clarity check as call 0, then the retry loop.
   */
  function Regenerate(specification: string, name: Option<string>, path: string, lists: Denylists, allow: Allowances,
                      env: Environment, cache: Cache): (r: Run)
    ensures |r.calls| >= 1 && r.calls[0] == ClarityRequest(specification)
    ensures CountOf(r.calls[1..], AssessSpecification) == 0
    ensures CountOf(r.calls, CopileFromSpecification) <= MaxTries
    ensures CountOf(r.calls, CheckForSafetyIssues) <= MaxTries
    ensures GeneratesOnly(r.calls, specification)
    ensures StartsWith(env.service(0, ClarityRequest(specification)), "UNCLEAR") ==>
              r == Run(Raised(SpecificationUnclear(name, env.service(0, ClarityRequest(specification)))), cache, [ClarityRequest(specification)])
    ensures !(r.outcome.Returned? && r.outcome.value.Some?) ==> r.cache == cache
    ensures r.outcome.Returned? && r.outcome.value.Some? ==> Succeeded(r, specification, name, path, lists, allow, env, cache)
  {
    var clarity := ReviewSpecification(name, specification, env.service, 0);
    if clarity.error.Some? then Run(Raised(clarity.error.value), cache, clarity.calls)
    else
      var r := Attempts(specification, name, path, lists, allow, env, cache, clarity.calls, 0);
      assert r.calls[..1] == clarity.calls;
      assert r.calls == [ClarityRequest(specification)] + r.calls[1..];
      CountOfAppend([ClarityRequest(specification)], r.calls[1..], CopileFromSpecification);
      CountOfAppend([ClarityRequest(specification)], r.calls[1..], CheckForSafetyIssues);
      GeneratesOnlyAppend([ClarityRequest(specification)], r.calls[1..], specification);
      r
  }

  /**
   `_copiler` for one decorated function whose specification is
   `specification`, with the denylists `lists` and the cache `cache`.
   */
  function Copile(specification: string, options: Options, lists: Denylists, env: Environment, cache: Cache): (r: Run)
    ensures env.parse(specification).None? ==> r == Run(Raised(SpecificationSyntax(specification)), cache, [])
    ensures env.parse(specification).Some? ==>
              var name := CallableNameOf(env.parse(specification).value);
              var path := CachePath(name);
              && (path in cache && name.None? ==> r == Run(Raised(NamelessCacheLookup(path)), cache, []))
              && (path in cache && name.Some? && name.value in cache[path] && !options.force ==>
                    r == Run(Returned(Some(Callable(name.value, cache[path][name.value]))), cache, []))
              && (!Settled(specification, options, env.parse, cache) ==>
                    r == Regenerate(specification, name, path, lists, AllowancesOf(options), env, cache))
    ensures r.calls == [] <==> Settled(specification, options, env.parse, cache)
  {
    match env.parse(specification)
    case None => Run(Raised(SpecificationSyntax(specification)), cache, [])
    case Some(tree) =>
      var name := CallableNameOf(tree);
      var path := CachePath(name);
      var existing := ExistingCopilation(cache, path, name);
      if existing.NamelessLookup? then Run(Raised(NamelessCacheLookup(path)), cache, [])
      else if existing.Found? && !options.force then Run(Returned(Some(existing.callable)), cache, [])
      else Regenerate(specification, name, path, lists, AllowancesOf(options), env, cache)
  }

  /**
   A single whitelist string and the one-element list holding it make the
   same invocation, for each of the three whitelists.
   */
  lemma SingleStringIsSingletonList(specification: string, s: string, force: bool, modules: OneOrMany, functions: OneOrMany,
                                    overrides: OneOrMany, lists: Denylists, env: Environment, cache: Cache)
    ensures Copile(specification, Options(force, One(s), functions, overrides), lists, env, cache)
              == Copile(specification, Options(force, Many([s]), functions, overrides), lists, env, cache)
    ensures Copile(specification, Options(force, modules, One(s), overrides), lists, env, cache)
              == Copile(specification, Options(force, modules, Many([s]), overrides), lists, env, cache)
    ensures Copile(specification, Options(force, modules, functions, One(s)), lists, env, cache)
              == Copile(specification, Options(force, modules, functions, Many([s])), lists, env, cache)
  {
  }

  /**
   Nothing reaches the caller or the cache without passing the gate: a
   callable is either served from the cache with no service call, or was
   vetted by the last call and written to the cache. Every other outcome
   leaves the cache as it was.
   */
  lemma CopileVetsWhatItReturns(specification: string, options: Options, lists: Denylists, env: Environment, cache: Cache)
    ensures var r := Copile(specification, options, lists, env, cache);
            && (r.outcome.Returned? && r.outcome.value.Some? ==>
                  var c := r.outcome.value.value;
                  || (r.calls == [] && r.cache == cache && ExistingCopilation(cache, CachePath(Some(c.name)), Some(c.name)) == Found(c))
                  || (Vetted(c.source, lists, AllowancesOf(options), env.parse, env.service, |r.calls| - 1)
                      && c.name in r.cache[CachePath(CallableNameOf(env.parse(specification).value))]))
            && (!(r.outcome.Returned? && r.outcome.value.Some?) ==> r.cache == cache)
  {
    var r := Copile(specification, options, lists, env, cache);
    if env.parse(specification).Some? && !Settled(specification, options, env.parse, cache) {
      var name := CallableNameOf(env.parse(specification).value);
      assert r == Regenerate(specification, name, CachePath(name), lists, AllowancesOf(options), env, cache);
    }
  }

  /**
   The service is asked about clarity exactly once, first, whenever it is
   asked anything; it is asked to generate at most twice, always on the best
   tier and always with the specification, and to check safety at most twice.
   */
  lemma CopileCallDiscipline(specification: string, options: Options, lists: Denylists, env: Environment, cache: Cache)
    ensures var r := Copile(specification, options, lists, env, cache);
            && (r.calls != [] ==> r.calls[0] == ClarityRequest(specification) && CountOf(r.calls[1..], AssessSpecification) == 0)
            && CountOf(r.calls, CopileFromSpecification) <= MaxTries
            && CountOf(r.calls, CheckForSafetyIssues) <= MaxTries
            && GeneratesOnly(r.calls, specification)
  {
    var r := Copile(specification, options, lists, env, cache);
    if env.parse(specification).Some? && !Settled(specification, options, env.parse, cache) {
      var name := CallableNameOf(env.parse(specification).value);
      assert r == Regenerate(specification, name, CachePath(name), lists, AllowancesOf(options), env, cache);
    }
  }

  /** An unclear specification ends the invocation before any generation request. */
  lemma UnclearStopsBeforeGeneration(specification: string, options: Options, lists: Denylists, env: Environment, cache: Cache)
    requires !Settled(specification, options, env.parse, cache)
    requires StartsWith(env.service(0, ClarityRequest(specification)), "UNCLEAR")
    ensures var r := Copile(specification, options, lists, env, cache);
            && r.outcome == Raised(SpecificationUnclear(CallableNameOf(env.parse(specification).value), env.service(0, ClarityRequest(specification))))
            && r.cache == cache
            && CountOf(r.calls, CopileFromSpecification) == 0
  {
  }

  /**
   A second invocation after a successful one, not forced, is served from
   the cache without a service call when the candidate's text defines the
   specification's name: it returns the callable of that name, which need
   not be the one the first invocation loaded.
   */
  lemma ServedAfterWrite(specification: string, options: Options, lists: Denylists, env: Environment, cache: Cache)
    requires var r := Copile(specification, options, lists, env, cache);
             && r.outcome.Returned? && r.outcome.value.Some? && r.calls != []
             && env.parse(specification).Some?
             && var name := CallableNameOf(env.parse(specification).value);
             && var out := env.exec(r.outcome.value.value.source);
             && name.Some? && out.Executed? && name.value in out.defined
    requires !options.force
    ensures var r := Copile(specification, options, lists, env, cache);
            var n := CallableNameOf(env.parse(specification).value).value;
            Copile(specification, options, lists, env, r.cache)
              == Run(Returned(Some(Callable(n, r.outcome.value.value.source))), r.cache, [])
  {
    var r := Copile(specification, options, lists, env, cache);
    var c := r.outcome.value.value;
    var name := CallableNameOf(env.parse(specification).value);
    var path := CachePath(name);
    assert r == Regenerate(specification, name, path, lists, AllowancesOf(options), env, cache);
    var defined := env.exec(c.source).defined;
    assert r.cache == WriteCopiled(cache, path, name, c.source, defined);
    WriteThenLookup(cache, path, name.value, c.source, defined);
  }

  /**
   When the candidate's text does not define the specification's name, the
   next invocation finds nothing under that name and goes back to the
   service, however the first one ended.
   */
  lemma RenamedCandidateRegenerated(specification: string, options: Options, lists: Denylists, env: Environment, cache: Cache)
    requires var r := Copile(specification, options, lists, env, cache);
             && r.outcome.Returned? && r.outcome.value.Some? && r.calls != []
             && env.parse(specification).Some?
             && var name := CallableNameOf(env.parse(specification).value);
             && var out := env.exec(r.outcome.value.value.source);
             && name.Some? && out.Executed? && name.value !in out.defined
    ensures var r := Copile(specification, options, lists, env, cache);
            Copile(specification, options, lists, env, r.cache).calls != []
  {
    var r := Copile(specification, options, lists, env, cache);
    var c := r.outcome.value.value;
    var name := CallableNameOf(env.parse(specification).value);
    var path := CachePath(name);
    assert r == Regenerate(specification, name, path, lists, AllowancesOf(options), env, cache);
    var defined := env.exec(c.source).defined;
    assert r.cache == WriteCopiled(cache, path, name, c.source, defined);
    RenamedCandidateNotServed(cache, path, name.value, c.source, defined);
  }
}
