# tav core in Dafny

This project models the deterministic logic inside tav, a desktop app for building Godot games. Behind the app's web preview and play-test features sit decision and text-processing code. The model covers that code and proves what it promises.

- **Web export** (`WebExport`, web_export.dfy).
  - The single-slot export cache: `.tav/web/index.html` next to `.tav/web/.export_hash`.
  - Cache invalidation by `clear_export_cache`.
  - The text patches applied to `project.godot` on the way: the KoboldBridge autoload and the `sprint=` input.
  - The same-helper guard on `index.html`.
  - The project's files are a value, `ProjectFiles`. An export or a cache clear maps it to a new value.
- **Input map** (`InputMap`, input_map.dfy).
  - The line-driven parser of the `[input]` section of `project.godot`.
  - The cursor scan for `physical_keycode":<digits>`.
  - The keycode and description tables.
- **Small parsers and selectors of main.rs** (main_helpers.dfy):
  - `GodotVersion`: the Godot version string;
  - `GameFrame`: latest-frame selection;
  - `EnvFile`: `.env.local` lookup;
  - `ToolName`: tool-name extraction from agent output;
  - `Settings`: the settings merge;
  - `Playtest`: the play-test action table;
  - `PreviewServer`: the preview server's path and MIME mapping;
  - `FileWatcher`: the file-watcher filter.
- **Gamepad mapper** (`Controls`, controls.dfy).
  - `ControlMapper` is a class: `MapToActions` builds the action list and records `prevState`.
  - NitroGen's button-index table.
  - The default mappings.
  - The classification of template control names.
- **Animation generator and catalog** (`Animations`, animations.dfy).
  - The AnimationTree scene builder.
  - The constant catalog of three packs, with lookup by id.
- **Sidecar build naming** (`Sidecar`, sidecar.dfy).
  - `get_target_triple`.
  - The output-name rule of build-sidecar.py.

`Text` (text.dfy) holds the string primitives these share, with the semantics of Rust's `str` methods:
- `find` (leftmost occurrence) and `contains`;
- `replace`: leftmost, non-overlapping, replace-all;
- `trim`, `split`, `lines`, `to_lowercase` (ASCII only);
- `parse::<u32>` and `parse::<u64>`.

Rust integer widths appear where they matter:
- frame numbers are u32;
- the stored project hash is u64.

The gamepad stick axes are reals. Only their comparisons with the deadzone matter.

## Model

| member | source | states |
|---|---|---|
| Text.FindFrom | src-tauri/src/main.rs:4149 | the position found is an occurrence, none lies before it, and None means no occurrence from the start position on |
| Text.ContainsIffOccurs | src-tauri/src/main.rs:1927 | `contains` holds exactly when the pattern occurs at some index |
| Text.ReplaceAllAbsent | src-tauri/src/main.rs:1929-1933 | replacing a pattern that does not occur leaves the text unchanged |
| Text.ReplaceAllKeepsReplacement | src-tauri/src/main.rs:1929-1933 | when the pattern occurs, whatever the replacement contains is in the result |
| Text.ReplaceAllLeftmost | src-tauri/src/main.rs:1930-1933 | replace-all rewrites the text up to the first occurrence unchanged, then the replacement, then replace-all of what follows the occurrence |
| Text.TrimStart | src-tauri/src/main.rs:4089 | the result is a suffix, everything removed is whitespace, and the result does not start with whitespace |
| Text.TrimEnd | src-tauri/src/main.rs:4089 | the result is a prefix, everything removed is whitespace, and the result does not end with whitespace |
| Text.TrimOfTrimmed | src-tauri/src/main.rs:4089 | a text with no whitespace at either end is its own trim |
| Text.Split | src-tauri/src/main.rs:1658 | splitting gives at least one piece, and no piece holds the separator |
| Text.JoinSplit | src-tauri/src/main.rs:1658-1660 | joining the pieces of a split with the separator gives back the text |
| Text.SplitCount | src-tauri/src/main.rs:1658-1659 | a split has one piece more than the text has separators |
| Text.FirstWord | src-tauri/src/main.rs:4662 | the first whitespace-separated word is non-empty and has no whitespace; None exactly when the text is all whitespace |
| Text.ToLower | src-tauri/binaries/build-sidecar.py:14-15 | lower-casing keeps the length and maps each character by the ASCII rule |
| Text.NatToDecimal | src-tauri/src/main.rs:2158 | the decimal form of a number is a non-empty digit string |
| Text.DecimalValue | src-tauri/src/main.rs:2158 | the digits written for n read back as n |
| Text.DecimalRoundTrip | src-tauri/src/main.rs:2093 | a hash written in decimal is its own trim and parses back as the same u64 |
| WebExport.InjectKoboldBridgeMentionsBridge | src-tauri/src/main.rs:1927-1944 | after injection, project.godot mentions KoboldBridge in every branch |
| WebExport.InjectKoboldBridgeIdempotent | src-tauri/src/main.rs:1927-1944 | injecting the bridge twice gives what injecting it once gives |
| WebExport.InjectKoboldBridgeOneSection | src-tauri/src/main.rs:1929-1933 | with exactly one `[autoload]` header, the bridge line is inserted right after it and the rest of the file is kept |
| WebExport.InjectJsHelperIdempotent | src-tauri/src/main.rs:2163-2389 | when the helper mentions KoboldBridge, a second injection into index.html changes nothing |
| WebExport.AddSprintInputIdempotent | src-tauri/src/main.rs:2000-2011 | after the sprint fix-up project.godot contains `sprint=`, and a second fix-up changes nothing |
| WebExport.SyncTemplateIdempotent | src-tauri/src/main.rs:1971-2025 | a synced project is left alone by the next sync, and a sync never touches index.html or the stored hash |
| WebExport.PatchKeepsWebFiles | src-tauri/src/main.rs:2083-2087 | the template sync and the bridge injection leave index.html and the stored hash as they were |
| WebExport.CachedIff | src-tauri/src/main.rs:2091-2101 | the `CACHED:` answer comes exactly when Godot is found, force is absent or false, index.html exists, and the trimmed stored hash parses as a u64 equal to the current hash |
| WebExport.HashOnlyOnSuccess | src-tauri/src/main.rs:2138-2158 | every error leaves the stored hash as it was; the hash changes only on a successful run that left an index.html, and then it holds the current hash in decimal |
| WebExport.ClearThenNoCacheHit | src-tauri/src/main.rs:1902-1910 | clearing succeeds when `.tav` is absent, and after a successful clear no export answers from the cache |
| WebExport.ExportThenCached | src-tauri/src/main.rs:2068-2161 | right after a successful export, a second non-forced export with the same hash answers from the cache and changes no file |
| InputMap.KeycodeNameIsKeyName | src-tauri/src/main.rs:4175-4191 | every name the keycode table gives is a letter A-Z or one of the special key names |
| InputMap.KeycodeTable | src-tauri/src/main.rs:4175-4191 | a code has a name exactly when it is in 65..=90 or in the special list; distinct named codes get distinct names; 65..=90 are the letters in order |
| InputMap.SprintKeyUnnamed | src-tauri/src/main.rs:4175-4191 | the key code 4194325 that generated projects bind to sprint has no name, so the key scan skips it |
| InputMap.UnderscoresToSpaces | src-tauri/src/main.rs:4204 | the fallback description has the action's length and every underscore turned into a space |
| InputMap.DescriptionKinds | src-tauri/src/main.rs:4193-4206 | a listed action gets its fixed description, and any other action gets its name with underscores as spaces |
| InputMap.DescriptionHasNoUnderscore | src-tauri/src/main.rs:4193-4206 | no description contains an underscore |
| InputMap.DigitRunEnd | src-tauri/src/main.rs:4151 | the search for the end of the digit run finds the first non-digit; None means only digits follow |
| InputMap.AppendNewProperties | src-tauri/src/main.rs:4154-4156 | appending only names not yet present keeps the list duplicate-free and holds exactly the old names and the new ones |
| InputMap.ParseKeysFromBlock | src-tauri/src/main.rs:4143-4173 | the cursor loop returns the key list of the block, as the scanned names deduplicated followed by the mouse key |
| InputMap.BlockKeysProperties | src-tauri/src/main.rs:4143-4173 | the keys are pairwise distinct; they are exactly the named codes plus at most one LeftClick/RightClick; the named keys come first, in the order of their first occurrence in the block; no code and no mouse event give no keys |
| InputMap.AppendNewOrder | src-tauri/src/main.rs:4149-4161 | the names the scan keeps come from the scanned codes, were not kept before, and are in the order of their first occurrence |
| InputMap.MouseKeysAreNotKeyNames | src-tauri/src/main.rs:4164-4170 | at most one mouse key is added, and it never clashes with a keyboard key name |
| InputMap.GetInputMappings | src-tauri/src/main.rs:4074-4141 | no project.godot gives the not-found error; otherwise the line loop returns the mappings of the whole-file scan |
| InputMap.MappingsWellFormed | src-tauri/src/main.rs:4108-4134 | every mapping emitted has a non-empty, duplicate-free key list and the description of its action |
| InputMap.NoInputSectionNoMappings | src-tauri/src/main.rs:4091-4103 | a file with no `[input]` line yields no mappings |
| InputMap.MappingsInFileOrder | src-tauri/src/main.rs:4111-4129 | mappings are only ever appended: the mappings after any prefix of the lines are a prefix of the final list |
| InputMap.ActionsFromInputSection | src-tauri/src/main.rs:4088-4138 | the scanner is inside the section exactly when the last header line was `[input]`, and every action it emits was defined by a `name={` line inside an input section |
| GodotVersion.GodotVersionCharacterized | src-tauri/src/main.rs:1655-1663 | the version is accepted exactly when the trimmed output has two dots or more; the result is then the prefix with the first three components; otherwise the error names the output |
| GameFrame.FrameNumber | src-tauri/src/main.rs:2557-2562 | a frame number, when there is one, fits in a u32 |
| GameFrame.FrameNumberOf | src-tauri/src/main.rs:2557-2562 | `frame_<n>.png` with n written in decimal is frame n, for every u32 n |
| GameFrame.FrameNumberShape | src-tauri/src/main.rs:2557-2562 | only names `frame_<d>.png` are frames, with `<d>` decimal digits after an optional '+', and the frame number is their value |
| GameFrame.LatestFrame | src-tauri/src/main.rs:2551-2605 | the count is the greatest frame number seen; 0 gives the empty screenshot; otherwise the screenshot is the path of the first entry with that number |
| GameFrame.FrameZeroNeverSelected | src-tauri/src/main.rs:2564 | `frame_0.png` parses to 0, which never beats the starting value 0 |
| GameFrame.FrameOtherExtensionRejected | src-tauri/src/main.rs:2557 | a name not ending in `.png` is not a frame |
| GameFrame.FrameNegativeRejected | src-tauri/src/main.rs:2558-2562 | a negative number does not parse as a u32 and is not a frame |
| EnvFile.LineValues | src-tauri/src/main.rs:567-575 | each line is trimmed and then matched for the key |
| EnvFile.ReadEnvFileKeyFirst | src-tauri/src/main.rs:565-580 | the key is found exactly when some line of some readable file sets it, and the value is that of the first such line of the first such file |
| EnvFile.FirstSomeIsFirst | src-tauri/src/main.rs:565-580 | the value found is the first one present in search order, and None means no location had the key |
| EnvFile.EnvValueTrimmed | src-tauri/src/main.rs:569-574 | a value returned is trimmed, and a comment line never matches |
| ToolName.ExtractToolNameIsWord | src-tauri/src/main.rs:4659-4673 | the tool name is always a non-empty word with no whitespace |
| ToolName.ExtractToolNameAfterTool | src-tauri/src/main.rs:4660-4662 | with `Tool:` present, the name is the first word after its first occurrence, else "unknown" |
| ToolName.ExtractToolNameAfterRunning | src-tauri/src/main.rs:4663-4665 | with no `Tool:` but a `Running:`, the name is the first word after it, else "command" |
| ToolName.ExtractToolNameFallback | src-tauri/src/main.rs:4666-4672 | with neither `Tool:` nor `Running:` anywhere in the line, the name is read_file exactly when `Reading` occurs, write_file exactly when `Writing` occurs and `Reading` does not, and tool otherwise |
| Settings.MergeSettings | src-tauri/src/main.rs:4226-4239 | the field-by-field updates give the merge of the stored settings and the request |
| Settings.MergedProperties | src-tauri/src/main.rs:4226-4239 | each of the four fields set in the request replaces the stored value and each unset one keeps it; the other three fields are untouched; a save is idempotent, and an empty request changes nothing |
| Settings.MergedComposes | src-tauri/src/main.rs:4226-4239 | two saves equal one save of the second request laid over the first |
| Settings.MergedIntoDefault | src-tauri/src/main.rs:4226-4239 | over default settings, the result holds exactly the four fields the request set |
| Playtest.PlaytestCommandProperties | src-tauri/src/main.rs:2987-2999 | only the empty action sends nothing; the listed actions map as the table says; any other action sends "stop" |
| PreviewServer.RequestPathProperties | src-tauri/src/main.rs:2431-2435 | the served path never starts with '/', and `/name` serves `name` |
| PreviewServer.RequestPathKeepsParent | src-tauri/src/main.rs:2434 | a `..` component is kept, so `/../x` is served from outside the export directory |
| PreviewServer.FileName | src-tauri/src/main.rs:2451 | the file name holds no '/' |
| PreviewServer.LastIndexOf | src-tauri/src/main.rs:2451 | the index found holds the character and none follows it; None means the character is absent |
| PreviewServer.ExtensionDecomposes | src-tauri/src/main.rs:2451 | an extension is what follows the last dot of a name with a non-empty stem; otherwise there is none |
| PreviewServer.ServedMimeProperties | src-tauri/src/main.rs:2431-2460 | the root URL is served as HTML, and every extension outside the table is served as octet-stream |
| PreviewServer.IndexExtension | src-tauri/src/main.rs:2431-2452 | index.html has extension "html" |
| FileWatcher.RelevantChanges | src-tauri/src/main.rs:4722-4741 | the filter keeps exactly the relevant paths, and never more than it was given |
| FileWatcher.PresetsTestRedundant | src-tauri/src/main.rs:4727-4739 | a path is relevant exactly when it has none of the ignored parts and a watched extension; the export_presets.cfg test never excludes anything |
| FileWatcher.TavAndHiddenIgnored | src-tauri/src/main.rs:4727-4729 | nothing under `.tav` or a hidden file or directory is relevant |
| Controls.ControlMapper.constructor | src-tauri/src/controls.rs:125-127 | a new mapper holds the given mappings and no previous state |
| Controls.ControlMapper.MapToActions | src-tauri/src/controls.rs:178-270 | the actions are those the mappings give for the state; prevState becomes the state and the mappings are unchanged |
| Controls.PushStickActions | src-tauri/src/controls.rs:182-223 | the pushes for the left stick give the stick actions of the state |
| Controls.PushButtonActions | src-tauri/src/controls.rs:238-266 | the pushes for the buttons append the button actions of the state |
| Controls.StickActionsShape | src-tauri/src/controls.rs:182-266 | at most two stick actions, all moves; look actions are looks; button actions are jump, attack, interact or sprint |
| Controls.StopIffCentered | src-tauri/src/controls.rs:184-223 | `move "stop"` is produced exactly when both left axes lie within the deadzone, and it then comes first |
| Controls.MovesAreStickActions | src-tauri/src/controls.rs:182-266 | every move in the output comes from the left stick |
| Controls.VerticalDirections | src-tauri/src/controls.rs:184-200 | outside the deadzone, a move up is produced exactly when ly < -dz and the up slot is set, and a move down exactly when ly > dz and the down slot is set |
| Controls.HorizontalDirections | src-tauri/src/controls.rs:184-216 | outside the deadzone, a move left is produced exactly when lx < -dz and the left slot is set, and a move right exactly when lx > dz and the right slot is set |
| Controls.MoveDirections | src-tauri/src/controls.rs:184-216 | the four direction conditions together, and never both up and down, nor both left and right |
| Controls.VerticalFirst | src-tauri/src/controls.rs:186-216 | a vertical move, when one is sent, is the first action, so it precedes any horizontal move |
| Controls.LookIff | src-tauri/src/controls.rs:226-236 | a look is produced exactly when abs(rx) > dz or abs(ry) > dz, and every look carries exactly the two scaled right-stick axes |
| Controls.ButtonActionsRanked | src-tauri/src/controls.rs:238-266 | button actions come in the order jump, attack, interact, sprint |
| Controls.ButtonActionsLast | src-tauri/src/controls.rs:238-266 | the button actions are the tail of the output, and jump, attack, interact and sprint appear exactly when south, west, east and right shoulder are pressed |
| Controls.OnlyFourButtonsMatter | src-tauri/src/controls.rs:238-266 | the output ignores the button table and every button other than south, west, east and right shoulder |
| Controls.DefaultStickUp | src-tauri/src/controls.rs:317-336 | the defaults bind SOUTH and have deadzone 0.2; the default mapper turns (0, -0.8) into a single move up |
| Controls.ParseNitrogenOutputTable | src-tauri/src/controls.rs:273-309 | a button is pressed exactly when its index is present and above 0.5; indices are distinct; triggers and axes are copied raw, 0.0 when missing |
| Controls.EmptyReportStops | src-tauri/src/controls.rs:273-309 | an empty report is a centered pad with nothing pressed, and it maps to the single stop |
| Controls.FromTemplateControls | src-tauri/src/controls.rs:153-175 | the result is the defaults with each control name bound in order to its slot; joysticks, deadzone and sensitivity are unchanged |
| Controls.BindAllLastWins | src-tauri/src/controls.rs:158-171 | a slot is bound after binding exactly when some name classifies to it or it was bound before; it then holds the last such name, or its default when no name classifies to it |
| Controls.ClassifyPriority | src-tauri/src/controls.rs:159-170 | one iff per slot: SOUTH for jump; WEST for attack/fire without jump; EAST for interact/use without the keywords above; RIGHT_SHOULDER for sprint/run without those; LEFT_SHOULDER for crouch/duck without any of them; None exactly when none of the ten keywords occurs |
| Animations.UniversalLibraryWellFormed | src-tauri/src/animations.rs:43-74 | the Universal Animation Library pack has 12 clips, each a `.glb` named after the clip, looped or played once, with a positive duration and tags; the pack is CC0 with a download URL |
| Animations.UniversalLibrary2WellFormed | src-tauri/src/animations.rs:75-103 | the second library pack has 9 well-formed clips |
| Animations.MannequinWellFormed | src-tauri/src/animations.rs:104-121 | the mannequin pack has 4 well-formed clips |
| Animations.CatalogProperties | src-tauri/src/animations.rs:40-123 | the catalog holds three well-formed packs with the ids quaternius-ual, quaternius-ual2, quaternius-mannequin, pairwise distinct |
| Animations.FindPack | src-tauri/src/main.rs:3990-3993 | a pack found has the id asked for, and a miss is the "Pack not found" error naming the id |
| Animations.FindPackFirst | src-tauri/src/main.rs:3990-3993 | the lookup returns the first pack with the id |
| Animations.FindPackMissing | src-tauri/src/main.rs:3990-3993 | an id no pack has gives the error |
| Animations.CatalogLookup | src-tauri/src/animations.rs:40-123 | an id is found in the catalog exactly when it is one of the three ids, and each id finds its own pack |
| Animations.GenerateAnimationTreeTscn | src-tauri/src/animations.rs:279-310 | the pushes build the scene: the header, one block per animation in order, then the footer |
| Animations.TreeSceneFrame | src-tauri/src/animations.rs:279-310 | the scene starts with the fixed header and ends with the AnimationTree node; no animations give header then footer |
| Animations.BlocksPrefix | src-tauri/src/animations.rs:291-300 | the blocks of the first i animations are a prefix of all the blocks |
| Animations.BlockAt | src-tauri/src/animations.rs:291-300 | the block `id="anim_i"` with `animation = &"name"` sits right after the blocks of the animations before it, and the next block starts where it ends |
| Animations.FooterAt | src-tauri/src/animations.rs:302-307 | the footer follows the last block and closes the text |
| Animations.AnimBlockInjective | src-tauri/src/animations.rs:293-299 | two blocks are equal only for the same index and name, so each index has exactly one block |
| Animations.PackSceneHoldsClips | src-tauri/src/main.rs:3990-4011 | for every catalog pack, the scene written for its id holds clip i as the block `anim_i` naming it, at the offset after the blocks of the clips before it |
| Animations.PackTreeScene | src-tauri/src/main.rs:3990-4011 | a scene is generated exactly when the pack is found |
| Animations.PackTreeSceneExamples | src-tauri/src/main.rs:3990-4011 | the mannequin pack gives the scene for Idle, Walk, Run, Jump; an unknown id gives the error |
| Sidecar.TargetTripleCases | src-tauri/binaries/build-sidecar.py:12-29 | the target triple for each lower-cased system and machine: windows, darwin and linux by machine, anything else "unknown" |
| Sidecar.TargetTripleIgnoresCase | src-tauri/binaries/build-sidecar.py:14-15 | the triple depends only on the lower-cased system and machine |
| Sidecar.OutputNameExe | src-tauri/binaries/build-sidecar.py:39-41 | with the intended extension test, the name starts with nitrogen-sidecar-<target> and ends in .exe exactly for Windows triples |
| Sidecar.WindowsNameMissesExe | src-tauri/binaries/build-sidecar.py:39-41 | as written, "Windows"/"AMD64" gives the Windows triple but a name without .exe |
| Sidecar.OutputNamesAgreeWhenLower | src-tauri/binaries/build-sidecar.py:40 | the written and intended names agree when the system name is already lower case |

## Left out

- I/O of every kind is left out: reading and writing files, directory listing, base64 encoding of the screenshot, and the `println!` logging. The filesystem is a value (`ProjectFiles`, `DirEntry` lists, file contents as `Option<string>`). A read that fails is `None`.
- `get_project_hash` is a parameter, the current hash (a u64). It depends on file modification times and a directory walk with `DefaultHasher`, neither of which can be modelled faithfully.
- `WebExport.ExportThenCached`: the source computes the hash (main.rs:2082) before the template sync and the bridge injection rewrite project.godot (main.rs:2085-2088). The hash covers project.godot's modification time, so the export after an injection that changed project.godot sees a new hash next time and is not a cache hit. The lemma's premise that both exports see the same hash does not hold in that one case. The model takes each export's hash as given and does not relate it to the file changes.
- Spawning Godot is a parameter, `ExportRun`. It covers the launch failing, the exit status, stderr, and the index.html left behind. So are the export-presets writer, which is reduced to a flag, and the JavaScript helper's text, `helperScript`. The helper's browser-side behaviour is not modelled.
- `WebExport.InjectBridge`: the write of `kobold_bridge.gd` is a flag. A failure to read or write project.godot, which turns into an error return, is not modelled.
- `WebExport.SyncTemplate`: the scene and player files rewritten from templates are not modelled. Their contents come from templates.rs, which is not part of this model. The new `template_info.json` is modelled by its version field. A failed write of the synced files, which ends the export with an error, is not modelled.
- `WebExport.ClearExportCache`: the `.tav` directory is modelled by the four files the export uses. Other files under it are not represented.
- `PreviewServer`: the server thread, the socket, and the 404 and 500 responses are left out. Only the URL-to-path and extension-to-MIME mapping is modelled. Paths are joined as strings; `Path` normalisation is not modelled. `..` components pass through (`PreviewServer.RequestPathKeepsParent`), so a request can name a file outside the export directory; the model does not follow the join outside it.
- `FileWatcher`: the watcher thread, `WATCHER_ACTIVE`, debouncing and event emission are left out. Only the relevance filter is modelled.
- `EnvFile`: the list of `.env.local` locations is a parameter, one entry per location, `None` when unreadable.
- `Text.ToLower` and `Controls.Classify`: ASCII lower-casing only. Rust's `to_lowercase` and Python's `lower` also fold non-ASCII letters.
- `Text.Trim`: the whitespace set is a fixed list of Unicode White_Space characters. It is not derived from a Unicode database.
- `Controls.FromTemplateControls`: the template's `controls` object is given as the list of its keys, in the JSON map's iteration order. `None` stands for a value that is not an object.
- `Controls.LookActions`: the look arguments are `rx * 30 * sensitivity` over reals. f32 rounding and NaN comparisons are not modelled.
- `Controls.ControlMapper`: `load_from_project` and `save_to_project` are file I/O and are left out.
- `Controls.ParseNitrogenOutput`: NitroGen's f32 report values are reals, so f32 rounding and NaN are not modelled.
- `Animations.BlockAt` and `Animations.FooterAt` are stated for any header and footer around the blocks, through `Animations.Scene`. `Animations.TreeScene` is the instance with the fixed header and footer.
- `Animations.CatalogProperties` and the other well-formedness lemmas check clip files, loop modes, durations, tags, licence and download URL. Names, descriptions, categories and sources are copied as data but not checked.
- The rest of build-sidecar.py's `main` (PyInstaller install and run, file moves) is subprocess and filesystem I/O and is left out. So is nitrogen-sidecar.py, a stdin/stdout loop around a ZeroMQ client.
- HTTP downloads, zip extraction, the Gemini/OpenRouter requests, OAuth, and spawning goose, bd, npm and winget are network or process plumbing and are not modelled.
- templates.rs (GDScript and scene text written into projects) is not part of this model.

## Findings

| source | as written | input that shows it | evidently intended | confidence | as-written member | corrected member |
|---|---|---|---|---|---|---|
| src-tauri/binaries/build-sidecar.py:40 | the extension test compares the un-lowered `platform.system()` with "windows", while Python reports "Windows" | `platform.system() == "Windows"`, `platform.machine() == "AMD64"`: the output name is `nitrogen-sidecar-x86_64-pc-windows-msvc`, without `.exe` | `.exe` on Windows, matching the lower-cased test in `get_target_triple` | not executed | Sidecar.WindowsNameMissesExe | Sidecar.OutputNameExe |
