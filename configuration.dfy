/**
 * The retention policy. `Config.java` keeps it in static fields; here it is
 * one immutable record passed to every component.
 */
module Configuration {

  datatype Config = Config(
    /** Package patterns copied verbatim (`EXEMPT`). */
    exempt: seq<string>,
    /** Package patterns left out of the output (`EXCLUDE`). */
    exclude: seq<string>,
    includePubStaticFields: bool,
    includePriStaticFields: bool,
    includePubNonStaticFields: bool,
    includePriNonStaticFields: bool,
    includePrivateMethods: bool,
    includeNativeMethods: bool,
    /** Annotation descriptors that keep a member (`RETENTION_ANNOTATIONS`). */
    retentionAnnotations: seq<string>,
    // Read by the transformer and the two explorers, not declared in Config.java.
    includeAbstractClasses: bool,
    includeEnumData: bool,
    doJetbrainsContracts: bool,
    blacklistedPackages: seq<string>,
    /** Regular expressions, kept as their source text. */
    exemptStringPatterns: seq<string>)

  /** The four field categories each gated by its own inclusion flag. */
  datatype FieldCategory = PublicStatic | PrivateStatic | PublicInstance | PrivateInstance

  /** The inclusion flag of a category. */
  predicate Included(cfg: Config, c: FieldCategory) {
    match c
    case PublicStatic => cfg.includePubStaticFields
    case PrivateStatic => cfg.includePriStaticFields
    case PublicInstance => cfg.includePubNonStaticFields
    case PrivateInstance => cfg.includePriNonStaticFields
  }

  /**
   * The defaults `Config.java` declares, completed with values for the
   * members it does not declare.
   */
  function Defaults(includeAbstractClasses: bool, includeEnumData: bool, doJetbrainsContracts: bool,
                    blacklistedPackages: seq<string>, exemptStringPatterns: seq<string>): Config
  {
    Config(
      exempt := ["org/spongepowered/*"],
      exclude := ["org/reflections/*", "org/sfl4j/*"],
      includePubStaticFields := true,
      includePriStaticFields := true,
      includePubNonStaticFields := true,
      includePriNonStaticFields := true,
      includePrivateMethods := false,
      includeNativeMethods := false,
      retentionAnnotations := ["me.savag3.gucci.common.annotations.RetainAPI"],
      includeAbstractClasses := includeAbstractClasses,
      includeEnumData := includeEnumData,
      doJetbrainsContracts := doJetbrainsContracts,
      blacklistedPackages := blacklistedPackages,
      exemptStringPatterns := exemptStringPatterns)
  }
}
