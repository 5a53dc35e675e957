/**
 * The web-export step of the live preview: the single-slot export cache kept
 * in `.tav/web/.export_hash` next to `.tav/web/index.html`, its invalidation,
 * and the text patches applied to `project.godot` and `index.html` on the way.
 *
 * The project's files are a value (`ProjectFiles`); an export or a cache
 * clear maps it to a new value. The project hash, the outcome of the Godot
 * export run and the text of the injected JavaScript helper are parameters.
 */
module WebExport {
  import opened Text

  // ---------------------------------------------------------------------------
  // project.godot: the KoboldBridge autoload
  // ---------------------------------------------------------------------------

  const BRIDGE_NAME: string := "KoboldBridge"
  const BRIDGE_AUTOLOAD: string := BRIDGE_NAME + "=\"*res://.tav/kobold_bridge.gd\""

  /**
   * The new text of project.godot once the bridge autoload is registered:
   * unchanged when the text mentions the bridge; otherwise the autoload line
   * goes after every `[autoload]` header, or, with no such header, a new
   * section goes before every `[input]` header, or is appended at the end.
   */
  function InjectKoboldBridge(content: string): string {
    if Contains(content, BRIDGE_NAME) then content
    else if Contains(content, "[autoload]") then
      ReplaceAll(content, "[autoload]", "[autoload]\n\n" + BRIDGE_AUTOLOAD)
    else if Contains(content, "[input]") then
      ReplaceAll(content, "[input]", "[autoload]\n\n" + BRIDGE_AUTOLOAD + "\n\n[input]")
    else
      content + "\n\n[autoload]\n\n" + BRIDGE_AUTOLOAD + "\n"
  }

  lemma AutoloadMentionsBridge(prefix: string, suffix: string)
    ensures Contains(prefix + BRIDGE_AUTOLOAD + suffix, BRIDGE_NAME)
  {
    var t := prefix + BRIDGE_AUTOLOAD + suffix;
    assert t[|prefix|..|prefix| + |BRIDGE_NAME|] == BRIDGE_NAME;
    OccursGivesContains(t, BRIDGE_NAME, |prefix|);
  }

  /** After injection the text always mentions the bridge. */
  lemma InjectKoboldBridgeMentionsBridge(content: string)
    ensures Contains(InjectKoboldBridge(content), BRIDGE_NAME)
  {
    if Contains(content, BRIDGE_NAME) {
    } else if Contains(content, "[autoload]") {
      AutoloadMentionsBridge("[autoload]\n\n", "");
      assert "[autoload]\n\n" + BRIDGE_AUTOLOAD + "" == "[autoload]\n\n" + BRIDGE_AUTOLOAD;
      ReplaceAllKeepsReplacement(content, "[autoload]", "[autoload]\n\n" + BRIDGE_AUTOLOAD, BRIDGE_NAME);
    } else if Contains(content, "[input]") {
      AutoloadMentionsBridge("[autoload]\n\n", "\n\n[input]");
      ReplaceAllKeepsReplacement(content, "[input]", "[autoload]\n\n" + BRIDGE_AUTOLOAD + "\n\n[input]", BRIDGE_NAME);
    } else {
      AutoloadMentionsBridge(content + "\n\n[autoload]\n\n", "\n");
    }
  }

  /** Injecting twice is injecting once. */
  lemma InjectKoboldBridgeIdempotent(content: string)
    ensures InjectKoboldBridge(InjectKoboldBridge(content)) == InjectKoboldBridge(content)
  {
    InjectKoboldBridgeMentionsBridge(content);
  }

  /** Past the only occurrence of a pattern, the pattern no longer occurs. */
  lemma NothingAfterOnlyOccurrence(s: string, p: string, k: nat)
    requires |p| > 0 && OccursAt(s, p, k)
    requires forall j :: 0 <= j && j != k ==> !OccursAt(s, p, j)
    ensures !Contains(s[k + |p|..], p)
  {
    var rest := s[k + |p|..];
    forall j | 0 <= j
      ensures !OccursAt(rest, p, j)
    {
      if j + |p| <= |rest| {
        assert s[k + |p| + j..k + |p| + j + |p|] == rest[j..j + |p|];
        assert !OccursAt(s, p, k + |p| + j);
      }
    }
    ContainsIffOccurs(rest, p);
  }

  /**
   * With no bridge yet and exactly one `[autoload]` header, the autoload line
   * is inserted right after that header and the rest of the text is kept.
   */
  lemma InjectKoboldBridgeOneSection(content: string, k: nat)
    requires !Contains(content, BRIDGE_NAME)
    requires OccursAt(content, "[autoload]", k)
    requires forall j :: 0 <= j && j != k ==> !OccursAt(content, "[autoload]", j)
    ensures InjectKoboldBridge(content)
         == content[..k] + "[autoload]\n\n" + BRIDGE_AUTOLOAD + content[k + 10..]
  {
    var p := "[autoload]";
    var r := "[autoload]\n\n" + BRIDGE_AUTOLOAD;
    OccursGivesContains(content, p, k);
    ReplaceAllLeftmost(content, p, r, k);
    NothingAfterOnlyOccurrence(content, p, k);
    var rest := content[k + 10..];
    ReplaceAllAbsent(rest, p, r);
  }

  // ---------------------------------------------------------------------------
  // index.html: the JavaScript helper
  // ---------------------------------------------------------------------------

  /**
   * The new text of index.html: unchanged when it already mentions the
   * bridge, otherwise every `</head>` is replaced by the helper script (whose
   * own text ends with `</head>`).
   */
  function InjectJsHelper(html: string, helperScript: string): string {
    if Contains(html, BRIDGE_NAME) then html
    else ReplaceAll(html, "</head>", helperScript)
  }

  /** The helper is injected at most once, whether or not the page has a `</head>`. */
  lemma InjectJsHelperIdempotent(html: string, helperScript: string)
    requires Contains(helperScript, BRIDGE_NAME)
    ensures InjectJsHelper(InjectJsHelper(html, helperScript), helperScript)
         == InjectJsHelper(html, helperScript)
  {
    if !Contains(html, BRIDGE_NAME) {
      if Contains(html, "</head>") {
        ReplaceAllKeepsReplacement(html, "</head>", helperScript, BRIDGE_NAME);
      } else {
        ReplaceAllAbsent(html, "</head>", helperScript);
      }
    }
  }

  // ---------------------------------------------------------------------------
  // Template sync: version check and the `sprint` input
  // ---------------------------------------------------------------------------

  const TEMPLATE_VERSION: string := "1.0.0"

  /** The `sprint` action written into project.godot when it is missing (bound to key code 4194325). */
  const SPRINT_INPUT: string := "sprint=" + SPRINT_VALUE

  const SPRINT_VALUE: string :=
    "{\n\"deadzone\": 0.5,\n"
    + "\"events\": [Object(InputEventKey,"
    + "\"resource_local_to_scene\":false,"
    + "\"resource_name\":\"\","
    + "\"device\":-1,\"window_id\":0,"
    + "\"alt_pressed\":false,"
    + "\"shift_pressed\":false,"
    + "\"ctrl_pressed\":false,"
    + "\"meta_pressed\":false,"
    + "\"pressed\":false,\"keycode\":0,"
    + "\"physical_keycode\":4194325,"
    + "\"key_label\":0,\"unicode\":0,"
    + "\"location\":0,\"echo\":false,"
    + "\"script\":null)]\n}\n"

  /** `.tav/template_info.json` once read; a field is None when missing or not a string. */
  datatype TemplateInfo = TemplateInfo(template: Option<string>, dimension: Option<string>, version: Option<string>)

  /**
   * project.godot after the template sync's input check: unchanged when it
   * has a `sprint=` entry; otherwise the sprint input goes before every
   * `[rendering]` header, or at the end when there is none.
   */
  function AddSprintInput(content: string): string {
    if Contains(content, "sprint=") then content
    else if Contains(content, "[rendering]") then
      ReplaceAll(content, "[rendering]", SPRINT_INPUT + "\n[rendering]")
    else content + "\n" + SPRINT_INPUT
  }

  lemma SprintInputIn(prefix: string, suffix: string)
    ensures Contains(prefix + SPRINT_INPUT + suffix, "sprint=")
  {
    var t := prefix + SPRINT_INPUT + suffix;
    assert SPRINT_INPUT[..7] == "sprint=";
    OccursInConcat(prefix, SPRINT_INPUT, suffix, "sprint=", 0);
    OccursGivesContains(t, "sprint=", |prefix|);
  }

  /** After the check project.godot always has a `sprint=` entry, so a second check changes nothing. */
  lemma AddSprintInputIdempotent(content: string)
    ensures Contains(AddSprintInput(content), "sprint=")
    ensures AddSprintInput(AddSprintInput(content)) == AddSprintInput(content)
  {
    if Contains(content, "sprint=") {
    } else if Contains(content, "[rendering]") {
      SprintInputIn("", "\n[rendering]");
      assert "" + SPRINT_INPUT + "\n[rendering]" == SPRINT_INPUT + "\n[rendering]";
      ReplaceAllKeepsReplacement(content, "[rendering]", SPRINT_INPUT + "\n[rendering]", "sprint=");
    } else {
      SprintInputIn(content + "\n", "");
      assert content + "\n" + SPRINT_INPUT + "" == content + "\n" + SPRINT_INPUT;
    }
  }

  // ---------------------------------------------------------------------------
  // The project's files
  // ---------------------------------------------------------------------------

  /**
   * The files the export step reads and writes. Everything under `.tav/` is
   * `templateInfo`, `bridgeScript`, `indexHtml` and `exportHash`.
   */
  datatype ProjectFiles = ProjectFiles(
    projectGodot: Option<string>,          // project.godot
    exportPresets: bool,                   // export_presets.cfg exists
    templateInfo: Option<TemplateInfo>,    // .tav/template_info.json, when readable and valid JSON
    bridgeScript: bool,                    // .tav/kobold_bridge.gd exists
    indexHtml: Option<string>,             // .tav/web/index.html
    exportHash: Option<string>)            // .tav/web/.export_hash

  predicate TavExists(f: ProjectFiles) {
    f.templateInfo.Some? || f.bridgeScript || f.indexHtml.Some? || f.exportHash.Some?
  }

  /**
   * `sync_template_if_needed`: nothing to do without template info or when
   * its version is current; otherwise project.godot gets its sprint input and
   * the info is rewritten with the current version (missing template and
   * dimension read as "" and "3d").
   */
  function SyncTemplate(f: ProjectFiles): ProjectFiles {
    match f.templateInfo
    case None => f
    case Some(info) =>
      if info.version.GetOr("0.0.0") == TEMPLATE_VERSION then f
      else f.(
        projectGodot := if f.projectGodot.Some? then Some(AddSprintInput(f.projectGodot.value)) else None,
        templateInfo := Some(TemplateInfo(Some(info.template.GetOr("")), Some(info.dimension.GetOr("3d")),
                                          Some(TEMPLATE_VERSION))))
  }

  /** A synced project is left alone by the next sync. */
  lemma SyncTemplateIdempotent(f: ProjectFiles)
    ensures SyncTemplate(SyncTemplate(f)) == SyncTemplate(f)
    ensures SyncTemplate(f).indexHtml == f.indexHtml && SyncTemplate(f).exportHash == f.exportHash
  {
    match f.templateInfo
    case None =>
    case Some(info) =>
      if info.version.GetOr("0.0.0") != TEMPLATE_VERSION && f.projectGodot.Some? {
        AddSprintInputIdempotent(f.projectGodot.value);
      }
  }

  /** `inject_kobold_bridge`: write the bridge script, register it in project.godot when present. */
  function InjectBridge(f: ProjectFiles): ProjectFiles {
    f.(bridgeScript := true,
       projectGodot := if f.projectGodot.Some? then Some(InjectKoboldBridge(f.projectGodot.value)) else None)
  }

  // ---------------------------------------------------------------------------
  // export_project_web
  // ---------------------------------------------------------------------------

  type U64 = n: nat | n < U64_LIMIT

  /** What the Godot export process did: it could not be started, or it exited. */
  datatype ExportRun =
    | LaunchError
    | Exited(success: bool, stderr: string, indexAfter: Option<string>)  // index.html as the run left it

  datatype ExportError =
    | GodotNotFound
    | ExportLaunchFailed
    | ExportExitFailure(stderr: string)
    | IndexHtmlMissing

  datatype ExportOutcome = ExportOutcome(result: Result<string, ExportError>, files: ProjectFiles)

  const CACHED_PREFIX: string := "CACHED:"

  /**
   * The cache-hit test: not forced, index.html present, and the trimmed
   * stored hash parses as a u64 equal to the current hash.
   */
  predicate CacheHit(force: Option<bool>, f: ProjectFiles, currentHash: U64) {
    && !force.GetOr(false)
    && f.indexHtml.Some?
    && f.exportHash.Some?
    && ParseUnsigned(Trim(f.exportHash.value), U64_LIMIT) == Some(currentHash)
  }

  /**
   * `export_project_web`: template sync and bridge injection always run; a
   * cache hit re-injects the helper and answers "CACHED:<dir>"; otherwise the
   * presets file is ensured, Godot runs, and only a successful run that left
   * an index.html gets the helper and records the current hash.
   */
  function ExportProjectWeb(f: ProjectFiles, force: Option<bool>, godotFound: bool, currentHash: U64,
                            run: ExportRun, helperScript: string, webDir: string): ExportOutcome
  {
    if !godotFound then ExportOutcome(Err(GodotNotFound), f)
    else
      var patched := InjectBridge(SyncTemplate(f));
      if CacheHit(force, patched, currentHash) then
        ExportOutcome(Ok(CACHED_PREFIX + webDir),
                      patched.(indexHtml := Some(InjectJsHelper(patched.indexHtml.value, helperScript))))
      else
        var prepared := patched.(exportPresets := true);
        match run
        case LaunchError => ExportOutcome(Err(ExportLaunchFailed), prepared)
        case Exited(success, stderr, indexAfter) =>
          var ran := prepared.(indexHtml := indexAfter);
          if !success then ExportOutcome(Err(ExportExitFailure(stderr)), ran)
          else if indexAfter.None? then ExportOutcome(Err(IndexHtmlMissing), ran)
          else ExportOutcome(Ok(webDir),
                             ran.(indexHtml := Some(InjectJsHelper(indexAfter.value, helperScript)),
                                  exportHash := Some(NatToDecimal(currentHash))))
  }

  lemma PatchKeepsWebFiles(f: ProjectFiles)
    ensures InjectBridge(SyncTemplate(f)).indexHtml == f.indexHtml
    ensures InjectBridge(SyncTemplate(f)).exportHash == f.exportHash
  {
    SyncTemplateIdempotent(f);
  }

  /**
   * The cached answer is given exactly when Godot is found, the export is not
   * forced, index.html exists and the stored hash text, trimmed, parses as a
   * u64 equal to the current hash; every other combination runs a real export.
   */
  lemma CachedIff(f: ProjectFiles, force: Option<bool>, godotFound: bool, currentHash: U64,
                  run: ExportRun, helperScript: string, webDir: string)
    ensures ExportProjectWeb(f, force, godotFound, currentHash, run, helperScript, webDir).result
              == Ok(CACHED_PREFIX + webDir)
        <==> godotFound && force != Some(true) && f.indexHtml.Some? && f.exportHash.Some?
             && ParseUnsigned(Trim(f.exportHash.value), U64_LIMIT) == Some(currentHash)
  {
    PatchKeepsWebFiles(f);
    assert |CACHED_PREFIX + webDir| != |webDir|;
  }

  /**
   * The hash file is written only on the success path, after the exit status
   * and index.html were checked; every error leaves it as it was.
   */
  lemma HashOnlyOnSuccess(f: ProjectFiles, force: Option<bool>, godotFound: bool, currentHash: U64,
                          run: ExportRun, helperScript: string, webDir: string)
    ensures var out := ExportProjectWeb(f, force, godotFound, currentHash, run, helperScript, webDir);
      && (out.result.Err? ==> out.files.exportHash == f.exportHash)
      && (out.files.exportHash != f.exportHash ==>
            out.result == Ok(webDir) && run.Exited? && run.success && run.indexAfter.Some?
            && out.files.exportHash == Some(NatToDecimal(currentHash)))
  {
    PatchKeepsWebFiles(f);
  }

  // ---------------------------------------------------------------------------
  // clear_export_cache
  // ---------------------------------------------------------------------------

  datatype ClearOutcome = ClearOutcome(result: Result<(), string>, files: ProjectFiles)

  /**
   * `clear_export_cache`: when `.tav` exists it is removed with everything in
   * it; removal failing (`removeFails`) is the only error. No `.tav` is success.
   */
  function ClearExportCache(f: ProjectFiles, removeFails: bool): ClearOutcome {
    if !TavExists(f) then ClearOutcome(Ok(()), f)
    else if removeFails then ClearOutcome(Err("Failed to clear cache"), f)
    else ClearOutcome(Ok(()), f.(templateInfo := None, bridgeScript := false, indexHtml := None, exportHash := None))
  }

  /**
   * Clearing succeeds whether or not `.tav` exists, and after a successful
   * clear no export can answer from the cache.
   */
  lemma ClearThenNoCacheHit(f: ProjectFiles, removeFails: bool, force: Option<bool>, godotFound: bool,
                            currentHash: U64, run: ExportRun, helperScript: string, webDir: string)
    ensures !TavExists(f) ==> ClearExportCache(f, removeFails).result.Ok?
    ensures var c := ClearExportCache(f, removeFails);
      c.result.Ok? ==>
        ExportProjectWeb(c.files, force, godotFound, currentHash, run, helperScript, webDir).result
          != Ok(CACHED_PREFIX + webDir)
  {
    var c := ClearExportCache(f, removeFails);
    CachedIff(c.files, force, godotFound, currentHash, run, helperScript, webDir);
  }

  /**
   * Right after a successful real export, a second non-forced export with an
   * unchanged project hash answers from the cache, runs nothing and changes
   * no file.
   */
  lemma ExportThenCached(f: ProjectFiles, force: Option<bool>, currentHash: U64, run: ExportRun,
                         force2: Option<bool>, run2: ExportRun, helperScript: string, webDir: string)
    requires Contains(helperScript, BRIDGE_NAME)
    requires ExportProjectWeb(f, force, true, currentHash, run, helperScript, webDir).result == Ok(webDir)
    requires force2 != Some(true)
    ensures var first := ExportProjectWeb(f, force, true, currentHash, run, helperScript, webDir).files;
      ExportProjectWeb(first, force2, true, currentHash, run2, helperScript, webDir)
        == ExportOutcome(Ok(CACHED_PREFIX + webDir), first)
  {
    var patched := InjectBridge(SyncTemplate(f));
    PatchKeepsWebFiles(f);
    assert |CACHED_PREFIX + webDir| != |webDir|;
    assert !CacheHit(force, patched, currentHash);
    var first := ExportProjectWeb(f, force, true, currentHash, run, helperScript, webDir).files;
    var html := run.indexAfter.value;
    assert first.indexHtml == Some(InjectJsHelper(html, helperScript));
    assert first.exportHash == Some(NatToDecimal(currentHash));
    // The sync and the injection have nothing left to do.
    SyncTemplateIdempotent(f);
    assert SyncTemplate(first) == first by {
      match f.templateInfo
      case None =>
      case Some(info) =>
    }
    if first.projectGodot.Some? {
      InjectKoboldBridgeMentionsBridge(SyncTemplate(f).projectGodot.value);
    }
    assert InjectBridge(first) == first;
    DecimalRoundTrip(currentHash, U64_LIMIT);
    assert CacheHit(force2, first, currentHash);
    InjectJsHelperIdempotent(html, helperScript);
  }
}
