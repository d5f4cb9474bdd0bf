# copile, modelled in Dafny

copile is a Python decorator. It takes a function whose body is only a
docstring, the *specification*, and asks a language model (the *service*) to
write the implementation. It runs the generated *candidate* through a safety
gate, loads it, and caches the source under `./copilations/<name>.co.py`.
This project models the decision logic of `copile/copilation.py` and proves
properties about it:

- cleaning a reply (`_strip_special`, `_clean_response`);
- finding the callable's name (`_parse_callable_name`);
- the two denylist scans (`check_for_blacklisted_modules_used`,
  `check_for_blacklisted_functions_used`);
- the safety gate (`_review_safety`) and the clarity check
  (`_review_specification`);
- the control flow of `_copiler`: the cache lookup, the clarity check, the
  retry loop and the cache write;
- the line-level rewrites of the cache file (`_move_imports_to_top`, and the
  splice in `_rewrite_copiled_source`).

Everything outside the core is a parameter, so each property holds for every
possible behaviour of it:

- the service is a function `(n, request) -> reply`: the reply to the `n`-th
  call of one invocation (`Oracle.Service`);
- `ast.parse` is a function from text to an optional syntax tree
  (`Syntax.Parser`). The tree keeps only what the core looks at: definitions,
  async definitions, classes, and calls through a bare name or an attribute;
- `exec` is a function from text to an outcome (`Copiler.ExecOutcome`). The
  outcome is the set of top-level names the text binds to a truthy object, a
  missing module, or any other failure. A `def` or `class` is always truthy;
- the cache directory is a map from path to file. A file is a map from each
  top-level name it binds to a truthy object to the source of the candidate
  text that bound it (`Copiler.Cache`). A cache write records every such name
  of the candidate's text, not only the callable that was loaded. Both lookups
  of the source test the found object for truth (copile/copilation.py:140,
  276), so a name bound to a falsy value, such as `f = None`, is a miss there
  and is absent here;
- the two denylist files are lists passed in (`Safety.Denylists`).

Every invocation returns its outcome, the new cache, and the list of service
calls it made, in order. That makes statements such as "no call is made on a
cache hit" and "the clarity check is made once, first" provable.

Modules, one per file:

- `Wrappers`: `Option`;
- `Strings`: Python's `startswith`, `endswith`, `in`, `strip`, `split`, `join`;
- `Syntax`: the abstract syntax tree;
- `CallableName`: `_parse_callable_name`;
- `Scanners`: the two denylist scans;
- `Cleaning`: reply cleaning;
- `Oracle`: requests, tiers, risk labels;
- `Errors`: the exceptions the core raises;
- `Safety`: the gate and the clarity check;
- `Copiler`: `_copiler`;
- `Retries`: how the retry loop plays out;
- `Hoisting`: `_move_imports_to_top`;
- `Splice`: the rewrite splice.

Points of the code's behaviour that the model keeps:

- **Unparsable candidates.** A candidate that does not parse is not retried.
  The function scan calls `ast.parse` inside `_review_safety`, which runs
  outside the loop's `try` (copile/copilation.py:216, 292-295). The
  `SyntaxError` therefore ends the invocation (`Errors.CandidateSyntax`); see
  `Retries.UnparsableCandidateNotRetried`. More generally, whatever the gate
  raises ends the invocation with that error (`Retries.GateErrorNotRetried`).
- **The "no issues" sentinel.** The gate removes the exact text `NONE` from
  the reply's labels (copile/copilation.py:244, copile/system_messages.py:26).
  Any other label, whatever its case, is an issue (`Safety.StrayReplyIsAnIssue`).
- **Which name gets loaded.** Loading a candidate looks up the candidate's own
  first definition, found breadth-first, not the specification's name
  (copile/copilation.py:157-161). The whole candidate text is then written to
  the cache under the specification's path. The next invocation looks up the
  specification's name in that file. At the level of names, it is served when
  the candidate's text binds that name at top level to a truthy object, as any
  `def` or `class` does (`Copiler.ServedAfterWrite`), and it generates again
  otherwise (`Copiler.RenamedCandidateRegenerated`). Both hold only while the file still
  executes after the write. The import hoist that follows every write moves
  any line whose text starts with `import ` or `from `, including a docstring
  line or a line of a multi-line string (`Hoisting.TextLineHoisted`). Such a
  file no longer parses, and the next lookup raises `SyntaxError` instead,
  since `_get_existing_copilation` catches only a missing file or attribute
  (copile/copilation.py:86-97).
- **Looking up `None`.** When the specification defines nothing, the name is
  `None` and the path is `./copilations/None.co.py`. If that file exists,
  `getattr(module, None)` raises a `TypeError`, even with `force`
  (`Errors.NamelessCacheLookup`).
- **Payloads are sets.** Violation payloads are modelled as sets. Python's
  `list(set(...))` gives no order, and the scans run over
  `list(set(denylist) - set(whitelist))`.

## Model

| member | source | states |
|---|---|---|
| Cleaning.StripPrefixes | copile/copilation.py:63-65 | the prefix loop only removes text from the front: the result is a suffix of the input and never longer |
| Cleaning.StripSuffixes | copile/copilation.py:66-68 | the suffix loop only removes text from the end: the result is a prefix of the input and never longer |
| Cleaning.StripSuffixesRemovesInOrder | copile/copilation.py:66-68 | with no empty suffix in the list, the suffixes removed form a subsequence of the list: each at most once, in list order. The input is the result followed by those suffixes, last removed first |
| Cleaning.StripPrefixesRemovesInOrder | copile/copilation.py:63-65 | the prefixes removed form a subsequence of the list: each at most once, in list order. The input is those prefixes, concatenated, followed by the result |
| Cleaning.StripSpecial | copile/copilation.py:62-69 | the result is never longer than the input and is a substring of it |
| Cleaning.StripSpecialNoAffix | copile/copilation.py:62-69 | text that starts with no listed prefix and ends with no listed suffix comes back unchanged |
| Cleaning.EmptySuffixErases | copile/copilation.py:66-68 | an empty suffix empties the text, since `s[:-0]` is `s[:0]` |
| Cleaning.CleanResponse | copile/copilation.py:72-76 | the cleaned reply is never longer than the reply, is a substring of it, and has no white space at either end |
| Cleaning.CleanResponseNoAffix | copile/copilation.py:72-76 | a reply with none of the quote or fence artifacts is only stripped of white space |
| Cleaning.CleanFencedBlock | copile/copilation.py:72-76 | a reply fenced with a python code fence cleans to exactly the code inside the fence |
| Cleaning.CleanQuoted | copile/copilation.py:72-76 | one pair of single quotes around code is removed |
| Cleaning.CleanNotIdempotent | copile/copilation.py:62-76 | each artifact is removed at most once, so a doubly quoted reply keeps one pair of quotes and a second cleaning changes it again |
| CallableName.FirstDefIsByLevels | copile/copilation.py:79-84 | the breadth-first queue walk of `ast.walk` finds the same name as a level-by-level search taking the leftmost definition of the first level that has one |
| CallableName.CallableNameNone | copile/copilation.py:79-84 | the name is `None` exactly when the tree holds no `def` or `class` (an `async def` does not count) |
| CallableName.CallableNameShallowest | copile/copilation.py:79-84 | a found name is the leftmost definition on the shallowest level that has any definition |
| CallableName.ShallowerDefinitionWins | copile/copilation.py:81-83 | a class one level down wins over a function nested deeper that comes first in the source |
| CallableName.AsyncDefinitionSkipped | copile/copilation.py:82 | an `async def` is passed over and the plain `def` inside it is found |
| Scanners.ScanModules | copile/copilation.py:178-193 | the result holds exactly the denylist entries whose `import m` or `from m import` text occurs in the source. It is no longer than the denylist: empty for an empty denylist, and a list, never `None` |
| Scanners.LongerNameReported | copile/copilation.py:191 | the match is textual: `import osx` or `import os.path` reports `os` |
| Scanners.ScanFunctionsIff | copile/copilation.py:195-220 | a name is reported exactly when it is denylisted and some call node below the root calls it as a bare name |
| Scanners.BareNameCallsOnly | copile/copilation.py:210-212 | `os.system()` is not reported for `system`, while `system()` is |
| Safety.Allowed | copile/copilation.py:227 | the effective denylist holds exactly the denylisted names that are not whitelisted |
| Safety.Issues | copile/copilation.py:242-244 | an issue is exactly a piece of the reply split at `, ` that is neither overridden nor the sentinel `NONE` |
| Safety.ReviewSafety | copile/copilation.py:222-246 | a module violation raises first, with the reference set of violations, and makes no call. Then an unparsable candidate raises, then a function violation raises, also without a call. The service is called once, with the best tier, exactly when both scans are clean. The gate passes exactly when the candidate is clean and the reply leaves no issue. A clean candidate whose reply leaves issues raises `SourceDeemedUnsafe` carrying exactly those issues |
| Safety.WhitelistedNeverReported | copile/copilation.py:227-245 | a whitelisted module, whitelisted function or overridden label never appears in the payload of the matching error the gate raises |
| Safety.IssuesOfLabels | copile/copilation.py:241-244 | for a reply that lists risk labels, the issues are exactly the listed labels less the overrides and the sentinel, and all of them are risk labels |
| Safety.OverrideClearsLabel | copile/copilation.py:241-245 | `FILE_WRITE, NONE` with `FILE_WRITE` overridden leaves no issue |
| Safety.StrayReplyIsAnIssue | copile/copilation.py:242-245 | a reply without a comma that is not `NONE` is itself the one issue. This covers the empty reply and `none` in lower case |
| Safety.ReviewSpecification | copile/copilation.py:248-251 | one fast-tier call; it raises, carrying the name and the reply, exactly when the reply starts with `UNCLEAR` |
| Copiler.SingleStringIsSingletonList | copile/copilation.py:254-261 | for each of the three whitelists, passing a single string gives the same invocation, outcome, cache and calls as passing the one-element list holding it |
| Copiler.CachePath | copile/copilation.py:268-269 | the path starts with `./copilations/`, ends with `.co.py`, and has the name in between |
| Copiler.CachePathRoundTrip | copile/copilation.py:268-269 | the name's text (`None` for no name) can be read back from the path |
| Copiler.CachePathInjective | copile/copilation.py:268-269 | two names with the same cache path are the same name |
| Copiler.ExistingCopilation | copile/copilation.py:86-97 | a lookup finds the callable exactly when the file exists and defines the name. Looking up `None` in an existing file raises |
| Copiler.WriteCopiled | copile/copilation.py:136-144 | after the write, the file defines every top-level name of the candidate's text, each with the candidate's source. Other files, and names the candidate does not define, are untouched, except that the specification's name is gone when the candidate's text does not define it |
| Copiler.WriteThenLookup | copile/copilation.py:136-144 | when the candidate's text defines the specification's name, a lookup of it after the write finds the candidate's source under it, whichever callable was loaded |
| Copiler.RenamedCandidateNotServed | copile/copilation.py:136-144 | when the candidate's text does not define the specification's name, the file no longer serves that name |
| Copiler.SourceToObject | copile/copilation.py:157-161 | loading succeeds exactly when the candidate parses, executes, and defines its own first definition's name; it then also gives every top-level name the text defines. A missing module is reported as such once the text parses |
| Copiler.Attempt | copile/copilation.py:285-305 | one attempt adds one best-tier generation call and at most one safety call. Whatever the gate raises ends the run with that very error and the cache unchanged. Another try follows exactly when the candidate passed the gate and failed to load for a reason other than a missing module. Any returned callable passed the gate, was loaded, and was written; every other outcome leaves the cache alone |
| Copiler.Attempts | copile/copilation.py:280-309 | the loop adds at most two generation calls, at most two safety calls and no clarity check. `None` means both tries were spent, and the cache is then unchanged. A returned callable is the cleaned reply of the second-to-last call, vetted by the last call, loaded, and written to the cache |
| Copiler.Regenerate | copile/copilation.py:276-309 | the clarity check is call 0 and the only one. An unclear specification raises before any generation. At most two generation calls follow |
| Copiler.Copile | copile/copilation.py:253-312 | a specification that does not parse raises with no call. A cache hit without `force` returns the cached callable with no call. Looking up `None` in an existing file raises. Otherwise the generation branch runs. No call is made exactly when the invocation is settled by these cases |
| Copiler.CopileVetsWhatItReturns | copile/copilation.py:274-312 | a returned callable was served from the cache with no call, or it passed the gate on the last call and is in the cache. Every other outcome leaves the cache as it was |
| Copiler.CopileCallDiscipline | copile/copilation.py:276-296 | whenever the service is called, call 0 is the only clarity check. There are at most two generation calls, each with the specification on the best tier, and at most two safety checks |
| Copiler.UnclearStopsBeforeGeneration | copile/copilation.py:276-278 | an unclear specification raises with no generation call and no cache change |
| Copiler.ServedAfterWrite | copile/copilation.py:274-298 | after a successful generation whose candidate text defines the specification's name, the next unforced invocation is served from the cache with no call. It returns the callable of that name from the candidate's source, which need not be the callable the first invocation loaded |
| Copiler.RenamedCandidateRegenerated | copile/copilation.py:274-298 | after a successful generation whose candidate text does not define the specification's name, the next invocation calls the service again |
| Retries.StopOnGateError | copile/copilation.py:292-295 | in any try, a candidate the gate rejects ends the loop with the gate's own error, after the generation call and whatever call the gate made |
| Retries.GateErrorNotRetried | copile/copilation.py:292-295 | a first candidate the gate rejects, for whatever reason, ends the invocation with the gate's error and no second generation call |
| Retries.UnparsableCandidateNotRetried | copile/copilation.py:292-297 | a candidate that passes the module scan but does not parse raises at once, after one generation call |
| Retries.SecondAttemptSucceeds | copile/copilation.py:284-304 | a vetted first candidate that fails to load is followed by a second one. When that one loads it is returned and cached, after exactly five calls |
| Retries.GivesUpAfterTwoLoadFailures | copile/copilation.py:284-309 | two vetted candidates that fail to load return `None` with the cache unchanged, after exactly five calls |
| Retries.MissingModuleNotRetried | copile/copilation.py:296-302 | a vetted candidate that needs a missing module raises that error after one generation and its safety check |
| Hoisting.Partition | copile/copilation.py:104-111 | the loop puts each line on exactly one side, keeping order, with as many lines out as in |
| Hoisting.MoveImportsToTop | copile/copilation.py:100-115 | the rewritten lines are the normalised import lines followed by the other lines, with the line count preserved |
| Hoisting.HoistedShape | copile/copilation.py:107-115 | every line is kept: import lines come first and all the lines after them are non-import lines |
| Hoisting.HoistedIdempotent | copile/copilation.py:100-115 | hoisting twice equals hoisting once. Import lines (normalised) and other lines (verbatim) keep their relative order |
| Hoisting.FromTextIsImportLine | copile/copilation.py:107-109 | the line test is textual: an indented line whose text starts with the word `from`, as a docstring or string line can, counts as an import line |
| Hoisting.TextLineHoisted | copile/copilation.py:107-115 | such a line is moved above the line before it, for instance out of the docstring of the definition that line opens |
| Hoisting.NormalizedStable | copile/copilation.py:108-109 | a normalised import line is still an import line, and normalising it again changes nothing |
| Splice.SpliceDropsTwoFollowingLines | copile/copilation.py:126-130 | when the old definition is `n` whole lines, the splice removes them plus the two lines after them. It then inserts the new source and three newlines |
| Splice.SpliceAtEndOfFile | copile/copilation.py:126-130 | near the end of the file the slice is clipped, and everything from the definition on is replaced |

## Left out

- `_get_completion`, the service call (copile/copilation.py:31-59): the
  service is a parameter. Its character budget (a float factor of 0.9) and its
  over-budget branch are not modelled. That branch reads `.choices` from a plain
  string.
- The tier names `fast` and `best` map to concrete models in
  copile/copilation.py:36-37. The model keeps only the tier.
- Dynamic loading: `importlib` and `exec` in `_get_existing_copilation`,
  `_source_to_object` and `_rewrite_copiled_source`. They are replaced by the
  `Interpreter` parameter and the cache map. Exceptions raised while a cache
  file is executed, other than a missing file, are not modelled.
- `Copiler.WriteCopiled` works at the level of names. It does not model the
  file text: the appended `\n\n` separator, the hoisting, and the `isort` and
  `black` passes (copile/copilation.py:143-149). The line-level steps are
  modelled on their own in `Hoisting` and `Splice`. Failures while writing are
  not modelled; in the source they count as a failed try through the bare
  `except`.
- `Copiler.Copile` and `Copiler.ServedAfterWrite` know names, not values. A
  falsy binding of the specification's name, which the source treats as a
  miss (copile/copilation.py:140, 276), is modelled only by leaving the name
  out of the file. One case falls outside that reading: a candidate whose
  first definition is later rebound at top level to a falsy value loads that
  value in the source, which writes it and returns it as the result. The
  model counts such a candidate as a load failure and tries again.
- `Copiler.WriteThenLookup` holds for the name-level write only. After the
  source's import hoist, a candidate with a non-import line whose text starts
  with `import ` or `from ` (`Hoisting.TextLineHoisted`) can leave a file that
  no longer parses, and its lookup then raises `SyntaxError`. The model's
  cache files always execute, so this case is not covered.
- `Copiler.ServedAfterWrite` holds only while the written file still executes.
  When the hoist has broken it, the next invocation raises `SyntaxError` at
  the lookup instead of being served, for the reason given for
  `Copiler.WriteThenLookup`.
- `Copiler.RenamedCandidateRegenerated` holds only while the written file
  still executes. When the hoist has broken it, the next invocation raises
  `SyntaxError` at the lookup instead of calling the service.
- `Splice.SpliceLines` takes the definition's first line as an input. Finding
  it needs `inspect.getsourcelines` on the live module.
- Deriving the specification (`inspect.getsource`, dropping the decorator
  line) and the caller's file name are not modelled. The specification text is
  an input.
- The `copile` decorator's dispatch (copile/copilation.py:314-326) is not
  modelled. The bare form `@copile` calls `_copiler` with the defaults (no
  `force`, empty whitelists) and ignores any options.
- `load_list` (file reading), `os.makedirs`, the `print` diagnostics,
  `save_hash_to_file`, `_save_api_key` and the command-line entry point are
  I/O only.
- `Copiler.AsList` normalises a single string into a one-element list. The
  source wraps any non-list value, such as a tuple, as one element. Only
  strings and lists are modelled.
- The message text of copile/copilation_errors.py: errors are constructors
  that carry the source and the violation set.
- The prompt texts of copile/system_messages.py: only the risk labels
  (lines 19-26) and the `NONE` sentinel are modelled.
