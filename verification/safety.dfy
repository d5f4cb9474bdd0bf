/**
 `_review_safety` and `_review_specification`: the gate every candidate passes
 before it is loaded, and the clarity check of the specification. The two
 denylist files are read into lists before the gate runs; reading them is not
 part of this model.
 */
module Safety {
  import opened Wrappers
  import opened Strings
  import opened Syntax
  import opened Scanners
  import opened Oracle
  import opened Errors

  /** The lines of `module_blacklist.txt` and `function_blacklist.txt`. */
  datatype Denylists = Denylists(modules: seq<string>, functions: seq<string>)

  /** The three caller-supplied lists, already normalised to lists. */
  datatype Allowances = Allowances(moduleWhitelist: seq<string>, functionWhitelist: seq<string>, unsafeOverrides: seq<string>)

  /** `list(set(denylist) - set(whitelist))`; the order of the result plays no part below. */
  function Allowed(denylist: seq<string>, whitelist: seq<string>): (r: seq<string>)
    ensures forall x :: x in r <==> x in denylist && x !in whitelist
  {
    if denylist == [] then []
    else
      var rest := Allowed(denylist[1..], whitelist);
      assert forall x :: x in denylist <==> x == denylist[0] || x in denylist[1..];
      if denylist[0] in whitelist then rest else [denylist[0]] + rest
  }

  /** Reference: the denylisted, non-whitelisted modules whose import syntax occurs in `source`. */
  ghost function ModuleViolations(source: string, denylist: seq<string>, whitelist: seq<string>): set<string> {
    set m | m in denylist && m !in whitelist && ImportsModule(source, m)
  }

  /** Reference: the denylisted, non-whitelisted names called as bare names somewhere below the root. */
  ghost function FunctionViolations(tree: Node, denylist: seq<string>, whitelist: seq<string>): set<string> {
    set f | f in denylist && f !in whitelist && CallsBelow(tree, f)
  }

  /** The request that asks the model for risk labels. */
  function SafetyRequest(source: string): Request {
    Request(CheckForSafetyIssues, Best, source)
  }

  /** The request that asks the model whether the specification is clear. */
  function ClarityRequest(specification: string): Request {
    Request(AssessSpecification, Fast, specification)
  }

  const LabelSeparator: string := ", "

  /**
   `set(reply.split(', ')) - set(unsafe_overrides) - {'NONE'}`: every piece of
   the reply is an issue unless overridden or the sentinel.
   */
  function Issues(reply: string, overrides: set<string>): (r: set<string>)
    ensures forall l :: l in r <==> l in Split(reply, LabelSeparator) && l !in overrides && l != NoIssues
  {
    (set l | l in Split(reply, LabelSeparator)) - overrides - {NoIssues}
  }

  /** The outcome of a review: the error it raises, if any, and the service calls it made. */
  datatype Review = Review(error: Option<CopileError>, calls: seq<Request>)

  /** The candidate passes both static scans. */
  ghost predicate StaticallyClean(source: string, lists: Denylists, allow: Allowances, parse: Parser) {
    && ModuleViolations(source, lists.modules, allow.moduleWhitelist) == {}
    && parse(source).Some?
    && FunctionViolations(parse(source).value, lists.functions, allow.functionWhitelist) == {}
  }

  /** The candidate passes the whole gate, the service's reply to call `k` included. */
  ghost predicate Vetted(source: string, lists: Denylists, allow: Allowances, parse: Parser, service: Service, k: nat) {
    && StaticallyClean(source, lists, allow, parse)
    && Issues(service(k, SafetyRequest(source)), set o | o in allow.unsafeOverrides) == {}
  }

  /**
   `_review_safety`: the module scan, then the function scan (which parses
   the candidate), then one call to the service, whose reply is the `k`-th of
   the invocation. The first check that fails raises.
   */
  function ReviewSafety(source: string, lists: Denylists, allow: Allowances, parse: Parser, service: Service, k: nat): (r: Review)
    ensures var mods := ModuleViolations(source, lists.modules, allow.moduleWhitelist);
            mods != {} ==> r == Review(Some(BlackListedModuleImport(source, mods)), [])
    ensures ModuleViolations(source, lists.modules, allow.moduleWhitelist) == {} && parse(source).None? ==>
              r == Review(Some(CandidateSyntax(source)), [])
    ensures ModuleViolations(source, lists.modules, allow.moduleWhitelist) == {} && parse(source).Some? ==>
              var funs := FunctionViolations(parse(source).value, lists.functions, allow.functionWhitelist);
              funs != {} ==> r == Review(Some(BlackListedFunctionUse(source, funs)), [])
    ensures r.calls != [] <==> StaticallyClean(source, lists, allow, parse)
    ensures StaticallyClean(source, lists, allow, parse) ==> r.calls == [SafetyRequest(source)]
    ensures r.error == None <==> Vetted(source, lists, allow, parse, service, k)
    ensures StaticallyClean(source, lists, allow, parse) && !Vetted(source, lists, allow, parse, service, k) ==>
              r.error == Some(SourceDeemedUnsafe(source, Issues(service(k, SafetyRequest(source)), set o | o in allow.unsafeOverrides)))
    ensures r.error.Some? && r.error.value.SourceDeemedUnsafe? ==>
              && StaticallyClean(source, lists, allow, parse)
              && r.error.value == SourceDeemedUnsafe(source, Issues(service(k, SafetyRequest(source)), set o | o in allow.unsafeOverrides))
  {
    var modules := set m | m in ScanModules(source, Allowed(lists.modules, allow.moduleWhitelist));
    assert modules == ModuleViolations(source, lists.modules, allow.moduleWhitelist);
    if modules != {} then Review(Some(BlackListedModuleImport(source, modules)), [])
    else match parse(source)
      case None => Review(Some(CandidateSyntax(source)), [])
      case Some(tree) =>
        var functions := ScanFunctions(tree, Allowed(lists.functions, allow.functionWhitelist));
        ScanMatchesViolations(tree, lists.functions, allow.functionWhitelist);
        if functions != {} then Review(Some(BlackListedFunctionUse(source, functions)), [])
        else
          var request := SafetyRequest(source);
          var issues := Issues(service(k, request), set o | o in allow.unsafeOverrides);
          Review(if issues == {} then None else Some(SourceDeemedUnsafe(source, issues)), [request])
  }

  lemma ScanMatchesViolations(tree: Node, denylist: seq<string>, whitelist: seq<string>)
    ensures ScanFunctions(tree, Allowed(denylist, whitelist)) == FunctionViolations(tree, denylist, whitelist)
  {
    forall f ensures f in ScanFunctions(tree, Allowed(denylist, whitelist)) <==> f in FunctionViolations(tree, denylist, whitelist) {
      ScanFunctionsIff(tree, Allowed(denylist, whitelist), f);
    }
  }

  /** A whitelisted name is never the reason the gate raises. */
  lemma WhitelistedNeverReported(source: string, lists: Denylists, allow: Allowances, parse: Parser, service: Service, k: nat, name: string)
    requires name in allow.moduleWhitelist || name in allow.functionWhitelist || name in allow.unsafeOverrides
    ensures var r := ReviewSafety(source, lists, allow, parse, service, k);
            && (r.error.Some? && r.error.value.BlackListedModuleImport? && name in allow.moduleWhitelist ==> name !in r.error.value.modules)
            && (r.error.Some? && r.error.value.BlackListedFunctionUse? && name in allow.functionWhitelist ==> name !in r.error.value.functions)
            && (r.error.Some? && r.error.value.SourceDeemedUnsafe? && name in allow.unsafeOverrides ==> name !in r.error.value.issues)
  {
  }

  /** Neither the labels nor the sentinel contain the separator's first character. */
  lemma LabelsHaveNoComma()
    ensures forall l :: l in RiskLabels ==> ',' !in l
    ensures ',' !in NoIssues
  {
  }

  /**
   When the reply is a well-formed list of labels, the issues are exactly the
   listed labels less the overrides, and all of them are risk labels.
   */
  lemma IssuesOfLabels(labels: seq<string>, overrides: set<string>)
    requires |labels| >= 1
    requires forall i :: 0 <= i < |labels| ==> labels[i] in RiskLabels || labels[i] == NoIssues
    ensures Issues(Join(labels, LabelSeparator), overrides) == (set l | l in labels) - overrides - {NoIssues}
    ensures Issues(Join(labels, LabelSeparator), overrides) <= RiskLabels
  {
    LabelsHaveNoComma();
    SplitJoin(labels, LabelSeparator);
  }

  /** An overridden label next to the sentinel leaves nothing: `FILE_WRITE, NONE` with `FILE_WRITE` overridden. */
  lemma OverrideClearsLabel()
    ensures Issues("FILE_WRITE" + LabelSeparator + NoIssues, {"FILE_WRITE"}) == {}
  {
    LabelsHaveNoComma();
    IssuesOfLabels(["FILE_WRITE", NoIssues], {"FILE_WRITE"});
    assert Join(["FILE_WRITE", NoIssues], LabelSeparator) == "FILE_WRITE" + LabelSeparator + NoIssues by {
      JoinCons("FILE_WRITE", [NoIssues], LabelSeparator);
    }
  }

  /** Any reply that is not a list of labels counts as an issue, the empty reply included. */
  lemma StrayReplyIsAnIssue(reply: string)
    requires ',' !in reply && reply != NoIssues
    ensures Issues(reply, {}) == {reply}
  {
    SplitWhole(reply, LabelSeparator);
  }

  /** `_review_specification`: one fast-tier call; it raises exactly when the reply starts with `UNCLEAR`. */
  function ReviewSpecification(callableName: Option<string>, specification: string, service: Service, k: nat): (r: Review)
    ensures r.calls == [ClarityRequest(specification)]
    ensures r.error.Some? <==> StartsWith(service(k, ClarityRequest(specification)), "UNCLEAR")
    ensures r.error.Some? ==> r.error.value == SpecificationUnclear(callableName, service(k, ClarityRequest(specification)))
  {
    var reply := service(k, ClarityRequest(specification));
    Review(if StartsWith(reply, "UNCLEAR") then Some(SpecificationUnclear(callableName, reply)) else None,
           [ClarityRequest(specification)])
  }
}
