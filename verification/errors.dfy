/**
 The exceptions that leave the core, as data: each carries what the
 corresponding Python exception's message embeds. Message text is not modelled.
 */
module Errors {
  import opened Wrappers

  datatype CopileError =
    /** `ast.parse` rejected the specification (a `SyntaxError`). */
    | SpecificationSyntax(specification: string)
    /** The cache file exists but the specification names no callable: `getattr(module, None)` raises a `TypeError`. */
    | NamelessCacheLookup(path: string)
    /** `SpecificationUnclearError` */
    | SpecificationUnclear(callableName: Option<string>, reply: string)
    /** `BlackListedModuleImportError` */
    | BlackListedModuleImport(source: string, modules: set<string>)
    /** `ast.parse` rejected the candidate inside the function scan (a `SyntaxError`). */
    | CandidateSyntax(source: string)
    /** `BlackListedFunctionUseError` */
    | BlackListedFunctionUse(source: string, functions: set<string>)
    /** `CopiledSourceDeemedUnsafeError` */
    | SourceDeemedUnsafe(source: string, issues: set<string>)
    /** `CopiledSourceCodeNeedsModule` */
    | NeedsModule(moduleName: string)
}
