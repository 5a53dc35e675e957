/**
 * Small parsers and selectors of the desktop backend: the Godot version
 * string, the latest captured frame, `.env.local` lookup, the agent-log tool
 * name, the settings merge, the play-test action table, the preview server's
 * path and MIME choice and the file watcher's relevance filter.
 */

module GodotVersion {
  import opened Text

  /** `get_godot_version` after the process ran: the first three '.'-separated parts of the trimmed output. */
  function GodotVersion(stdout: string): Result<string, string> {
    var v := Trim(stdout);
    var parts := Split(v, '.');
    if |parts| >= 3 then Ok(parts[0] + "." + parts[1] + "." + parts[2])
    else Err("Unexpected version format: " + v)
  }

  lemma CountTwoDots(a: string, b: string, c: string)
    requires '.' !in a && '.' !in b && '.' !in c
    ensures CountChar(a + "." + b + "." + c, '.') == 2
  {
    CountCharAppend(a + "." + b + ".", c, '.');
    CountCharAppend(a + "." + b, ".", '.');
    CountCharAppend(a + ".", b, '.');
    CountCharAppend(a, ".", '.');
    CountCharAbsent(a, '.');
    CountCharAbsent(b, '.');
    CountCharAbsent(c, '.');
  }

  /** Joined pieces begin with the first three pieces rejoined, followed by nothing or by the separator. */
  lemma JoinFirstThree(parts: seq<string>)
    requires |parts| >= 3
    ensures var v, r := Join(parts, '.'), parts[0] + "." + parts[1] + "." + parts[2];
      |r| <= |v| && r == v[..|r|] && (|r| == |v| || v[|r|] == '.')
  {
    var x: string := if |parts| == 3 then [] else "." + Join(parts[3..], '.');
    assert parts[1..][1..] == parts[2..];
    assert parts[2..][1..] == parts[3..];
    assert Join(parts[2..], '.') == parts[2] + x;
    assert Join(parts, '.') == (parts[0] + "." + parts[1] + "." + parts[2]) + x;
  }

  /**
   * The version is accepted exactly when the trimmed output has at least two
   * dots. The result is then the trimmed output cut just before its third
   * dot (or at its end): a prefix with exactly two dots.
   */
  lemma GodotVersionCharacterized(stdout: string)
    ensures GodotVersion(stdout).Ok? <==> CountChar(Trim(stdout), '.') >= 2
    ensures GodotVersion(stdout).Err? ==>
      GodotVersion(stdout).error == "Unexpected version format: " + Trim(stdout)
    ensures GodotVersion(stdout).Ok? ==>
      var v, r := Trim(stdout), GodotVersion(stdout).value;
      && |r| <= |v| && r == v[..|r|]
      && CountChar(r, '.') == 2
      && (|r| == |v| || v[|r|] == '.')
  {
    var v := Trim(stdout);
    var parts := Split(v, '.');
    SplitCount(v, '.');
    if |parts| >= 3 {
      JoinSplit(v, '.');
      JoinFirstThree(parts);
      CountTwoDots(parts[0], parts[1], parts[2]);
    }
  }
}

module GameFrame {
  import opened Text

  /** A directory entry of `user_screenshots`: its file name and full path. */
  datatype DirEntry = DirEntry(name: string, path: string)

  /**
   * The number of a `frame_<n>.png` name, when `<n>` parses as a u32: the
   * prefix is stripped, then the suffix (a name the suffix cannot be
   * stripped from counts as "0").
   */
  function FrameNumber(name: string): (r: Option<nat>)
    ensures r.Some? ==> r.value < U32_LIMIT
  {
    if StartsWith(name, "frame_") && EndsWith(name, ".png") then
      var rest := name[6..];
      ParseUnsigned(if EndsWith(rest, ".png") then rest[..|rest| - 4] else "0", U32_LIMIT)
    else None
  }

  /**
   * The latest-frame selection of `get_game_frame`: the frame with the
   * greatest number above zero, the first one seen among equals; the empty
   * path and 0 when there is none. The frame count is the number selected.
   */
  method LatestFrame(entries: seq<DirEntry>) returns (screenshot: string, frameCount: nat)
    ensures frameCount < U32_LIMIT
    ensures forall i :: 0 <= i < |entries| && FrameNumber(entries[i].name).Some? ==>
              FrameNumber(entries[i].name).value <= frameCount
    ensures frameCount == 0 ==> screenshot == ""
    ensures frameCount > 0 ==>
      exists i :: 0 <= i < |entries| && FrameNumber(entries[i].name) == Some(frameCount)
                  && screenshot == entries[i].path
                  && forall j :: 0 <= j < i ==> FrameNumber(entries[j].name) != Some(frameCount)
  {
    screenshot := "";
    frameCount := 0;
    ghost var at := -1;
    for i := 0 to |entries|
      invariant frameCount < U32_LIMIT
      invariant forall k :: 0 <= k < i && FrameNumber(entries[k].name).Some? ==>
                  FrameNumber(entries[k].name).value <= frameCount
      invariant frameCount == 0 ==> screenshot == ""
      invariant frameCount > 0 ==>
        0 <= at < i && FrameNumber(entries[at].name) == Some(frameCount) && screenshot == entries[at].path
        && forall j :: 0 <= j < at ==> FrameNumber(entries[j].name) != Some(frameCount)
    {
      var num := FrameNumber(entries[i].name);
      if num.Some? && num.value > frameCount {
        frameCount := num.value;
        screenshot := entries[i].path;
        at := i;
      }
    }
    if frameCount > 0 {
      assert FrameNumber(entries[at].name) == Some(frameCount) && screenshot == entries[at].path;
    }
  }

  /** `frame_0.png` parses to frame 0, which the selection never takes, however the directory is listed. */
  lemma FrameZeroNeverSelected()
    ensures FrameNumber("frame_0.png") == Some(0)
  {
    assert StartsWith("frame_0.png", "frame_") && EndsWith("frame_0.png", ".png");
    assert "frame_0.png"[6..] == "0.png" && EndsWith("0.png", ".png");
    assert AllDigits("0") && DigitsValue("0") == 0;
  }

  /** A name that does not end in `.png` is no frame. */
  lemma FrameOtherExtensionRejected()
    ensures FrameNumber("frame_12.jpg") == None
  {
    assert "frame_12.jpg"[8..][1] == 'j';
  }

  /** Every u32 written in decimal between `frame_` and `.png` names that frame. */
  lemma FrameNumberOf(n: nat)
    requires n < U32_LIMIT
    ensures FrameNumber("frame_" + NatToDecimal(n) + ".png") == Some(n)
  {
    var d := NatToDecimal(n);
    var name := "frame_" + d + ".png";
    assert name[..6] == "frame_" && name[|name| - 4..] == ".png";
    var rest := name[6..];
    assert rest == d + ".png";
    assert rest[|rest| - 4..] == ".png" && rest[..|rest| - 4] == d;
    assert d[0] != '+';
    DecimalValue(n);
  }

  /**
   * Only names `frame_<d>.png` are frames, where `<d>` is a run of decimal
   * digits, optionally after one '+'; the frame number is the digits' value.
   */
  lemma FrameNumberShape(name: string)
    ensures FrameNumber(name).Some? ==>
      && |name| >= 11
      && name == "frame_" + name[6..|name| - 4] + ".png"
      && var d := name[6..|name| - 4];
         var digits := if d[0] == '+' then d[1..] else d;
         && digits != [] && AllDigits(digits)
         && FrameNumber(name).value == DigitsValue(digits)
  {
    if StartsWith(name, "frame_") && EndsWith(name, ".png") {
      assert name[..6] == "frame_";
      assert forall k :: 0 <= k < 6 ==> name[k] == "frame_"[k];
      assert name[|name| - 4] == '.';
      var rest := name[6..];
      assert rest[|rest| - 4..] == name[|name| - 4..];
      assert rest[..|rest| - 4] == name[6..|name| - 4];
      assert name == name[..6] + name[6..|name| - 4] + name[|name| - 4..];
    }
  }

  /** A sign is not a digit: `frame_-1.png` is no frame. */
  lemma FrameNegativeRejected()
    ensures FrameNumber("frame_-1.png") == None
  {
    assert StartsWith("frame_-1.png", "frame_") && EndsWith("frame_-1.png", ".png");
    assert "frame_-1.png"[6..] == "-1.png" && EndsWith("-1.png", ".png");
    assert !IsDigit('-');
  }
}

module EnvFile {
  import opened Text

  /** One trimmed line of `.env.local`: comments and blank lines never match; `KEY=value` gives the trimmed value. */
  function EnvLineValue(t: string, key: string): Option<string> {
    if StartsWith(t, "#") || t == [] then None
    else if StartsWith(t, key + "=") then Some(Trim(t[|key| + 1..]))
    else None
  }

  /** The first value present, in order. */
  function FirstSome(vals: seq<Option<string>>): Option<string> {
    if vals == [] then None else if vals[0].Some? then vals[0] else FirstSome(vals[1..])
  }

  /** What each line of a file says about the key. */
  function LineValues(lines: seq<string>, key: string): (vals: seq<Option<string>>)
    ensures |vals| == |lines|
    ensures forall i :: 0 <= i < |lines| ==> vals[i] == EnvLineValue(Trim(lines[i]), key)
  {
    if lines == [] then [] else [EnvLineValue(Trim(lines[0]), key)] + LineValues(lines[1..], key)
  }

  /** The value of the first matching line of one file. */
  function EnvValue(content: string, key: string): Option<string> {
    FirstSome(LineValues(Lines(content), key))
  }

  /** What each candidate file says about the key; an unreadable file says nothing. */
  function FileValues(files: seq<Option<string>>, key: string): seq<Option<string>> {
    seq(|files|, i requires 0 <= i < |files| => if files[i].Some? then EnvValue(files[i].value, key) else None)
  }

  /**
   * `read_env_file_key`: the candidate files in their fixed order, None for
   * one that cannot be read; the first file with a matching line decides.
   */
  function ReadEnvFileKey(files: seq<Option<string>>, key: string): Option<string> {
    FirstSome(FileValues(files, key))
  }

  /**
   * The search finds something exactly when some entry has a value, and then
   * it is the value of the first such entry: in a file, the first matching
   * line; among files, the first readable file that has the key.
   */
  lemma {:induction false} FirstSomeIsFirst(vals: seq<Option<string>>)
    ensures FirstSome(vals).Some? <==> exists i :: 0 <= i < |vals| && vals[i].Some?
    ensures FirstSome(vals).Some? ==>
      exists i :: 0 <= i < |vals| && vals[i] == FirstSome(vals) && forall j :: 0 <= j < i ==> vals[j].None?
  {
    if vals != [] {
      var tail := vals[1..];
      FirstSomeIsFirst(tail);
      assert forall i :: 0 < i < |vals| ==> vals[i] == tail[i - 1];
      if vals[0].None? && FirstSome(vals).Some? {
        var i :| 0 <= i < |tail| && tail[i] == FirstSome(tail) && forall j :: 0 <= j < i ==> tail[j].None?;
        assert vals[i + 1] == FirstSome(vals);
      }
    }
  }

  /** Line `j` of the readable file `i` sets the key. */
  predicate Matches(files: seq<Option<string>>, key: string, i: int, j: int) {
    && 0 <= i < |files| && files[i].Some?
    && 0 <= j < |Lines(files[i].value)|
    && EnvLineValue(Trim(Lines(files[i].value)[j]), key).Some?
  }

  function ValueAt(files: seq<Option<string>>, key: string, i: int, j: int): string
    requires Matches(files, key, i, j)
  {
    EnvLineValue(Trim(Lines(files[i].value)[j]), key).value
  }

  /**
   * `read_env_file_key` finds the key exactly when some line of some
   * readable file sets it, and then gives the value of the first such line
   * of the first such file.
   */
  lemma ReadEnvFileKeyFirst(files: seq<Option<string>>, key: string)
    ensures ReadEnvFileKey(files, key).Some? <==> exists i, j :: Matches(files, key, i, j)
    ensures ReadEnvFileKey(files, key).Some? ==>
      exists i, j :: && Matches(files, key, i, j)
                     && ReadEnvFileKey(files, key).value == ValueAt(files, key, i, j)
                     && forall i', j' :: Matches(files, key, i', j') ==> i < i' || (i == i' && j <= j')
  {
    var vals := FileValues(files, key);
    FirstSomeIsFirst(vals);
    forall i | 0 <= i < |files|
      ensures vals[i].Some? <==> exists j :: Matches(files, key, i, j)
    {
      if files[i].Some? {
        FileFirstMatch(files, key, i);
      }
    }
    if exists i, j :: Matches(files, key, i, j) {
      var i, j :| Matches(files, key, i, j);
      assert vals[i].Some?;
    }
    if ReadEnvFileKey(files, key).Some? {
      var i :| 0 <= i < |vals| && vals[i] == FirstSome(vals) && forall k :: 0 <= k < i ==> vals[k].None?;
      FileFirstMatch(files, key, i);
      var j :| Matches(files, key, i, j) && vals[i].value == ValueAt(files, key, i, j)
               && forall j' :: Matches(files, key, i, j') ==> j <= j';
      forall i', j' | Matches(files, key, i', j')
        ensures i <= i'
      {
        assert vals[i'].Some?;
      }
    }
  }

  /** Within one readable file, the value found is that of its first line setting the key. */
  lemma FileFirstMatch(files: seq<Option<string>>, key: string, i: int)
    requires 0 <= i < |files| && files[i].Some?
    ensures FileValues(files, key)[i].Some? <==> exists j :: Matches(files, key, i, j)
    ensures FileValues(files, key)[i].Some? ==>
      exists j :: && Matches(files, key, i, j)
                  && FileValues(files, key)[i].value == ValueAt(files, key, i, j)
                  && forall j' :: Matches(files, key, i, j') ==> j <= j'
  {
    var lines := Lines(files[i].value);
    var v := FileValues(files, key)[i];
    assert v == FirstSome(LineValues(lines, key));
    LinesFirstMatch(lines, key);
    assert forall j :: Matches(files, key, i, j) <==> 0 <= j < |lines| && EnvLineValue(Trim(lines[j]), key).Some?;
    if v.Some? {
      var j :| && 0 <= j < |lines| && v == EnvLineValue(Trim(lines[j]), key)
               && forall k :: 0 <= k < j ==> EnvLineValue(Trim(lines[k]), key).None?;
      assert Matches(files, key, i, j) && v.value == ValueAt(files, key, i, j);
    }
  }

  lemma LinesFirstMatch(lines: seq<string>, key: string)
    ensures FirstSome(LineValues(lines, key)).Some? <==>
      exists j :: 0 <= j < |lines| && EnvLineValue(Trim(lines[j]), key).Some?
    ensures FirstSome(LineValues(lines, key)).Some? ==>
      exists j :: && 0 <= j < |lines|
                  && FirstSome(LineValues(lines, key)) == EnvLineValue(Trim(lines[j]), key)
                  && forall k :: 0 <= k < j ==> EnvLineValue(Trim(lines[k]), key).None?
  {
    var lv := LineValues(lines, key);
    FirstSomeIsFirst(lv);
  }

  lemma TrimIsTrimmed(s: string)
    ensures Trim(Trim(s)) == Trim(s)
  {
    var u := TrimStart(s);
    var r := TrimEnd(u);
    if r != [] {
      assert r[0] == u[0];
    }
    TrimOfTrimmed(r);
  }

  /** A value found is already trimmed; a commented-out assignment is never found. */
  lemma EnvValueTrimmed(t: string, key: string)
    ensures EnvLineValue(t, key).Some? ==> Trim(EnvLineValue(t, key).value) == EnvLineValue(t, key).value
    ensures EnvLineValue("#" + t, key) == None
  {
    if EnvLineValue(t, key).Some? {
      TrimIsTrimmed(t[|key| + 1..]);
    }
    assert StartsWith("#" + t, "#");
  }

}

module ToolName {
  import opened Text

  /** `extract_tool_name`: what an agent log line says is running. */
  function ExtractToolName(line: string): string {
    match Find(line, "Tool:")
    case Some(start) => FirstWord(line[start + 5..]).GetOr("unknown")
    case None =>
      match Find(line, "Running:")
      case Some(start) => FirstWord(line[start + 8..]).GetOr("command")
      case None =>
        if Contains(line, "Reading") then "read_file"
        else if Contains(line, "Writing") then "write_file"
        else "tool"
  }

  predicate IsWord(w: string) {
    w != [] && forall i :: 0 <= i < |w| ==> !IsWhitespace(w[i])
  }

  /** The whitespace-delimited word of `s` that begins at `j`, with only whitespace from `from` up to it. */
  predicate FirstWordAt(s: string, from: nat, j: nat, w: string) {
    from <= j && OccursAt(s, w, j) && IsWord(w)
    && (forall i :: from <= i < j ==> IsWhitespace(s[i]))
    && (j + |w| == |s| || IsWhitespace(s[j + |w|]))
  }

  /** A word read off the suffix of `s` from `j` sits at `j` in `s`, with the same delimiter after it. */
  lemma WordInSuffix(s: string, j: nat, w: string)
    requires j <= |s| && |w| <= |s| - j && w == s[j..][..|w|]
    requires |w| == |s| - j || IsWhitespace(s[j..][|w|])
    ensures OccursAt(s, w, j)
    ensures j + |w| == |s| || IsWhitespace(s[j + |w|])
  {
    assert s[j..j + |w|] == s[j..][..|w|];
    if j + |w| < |s| {
      assert s[j + |w|] == s[j..][|w|];
    }
  }

  lemma FirstWordPosition(s: string)
    ensures FirstWord(s).Some? ==> FirstWordAt(s, 0, |s| - |TrimStart(s)|, FirstWord(s).value)
  {
    var u := TrimStart(s);
    if u != [] {
      var w := TakeWord(u);
      var j := |s| - |u|;
      assert FirstWord(s) == Some(w);
      assert u == s[j..];
      WordInSuffix(s, j, w);
      assert IsWord(w);
    }
  }

  lemma FirstWordAtShift(line: string, k: nat, j: nat, w: string)
    requires k <= |line| && FirstWordAt(line[k..], 0, j, w)
    ensures FirstWordAt(line, k, k + j, w)
  {
    var t := line[k..];
    assert line[k + j..k + j + |w|] == t[j..j + |w|];
    forall i | k <= i < k + j
      ensures IsWhitespace(line[i])
    {
      assert line[i] == t[i - k];
    }
    if k + j + |w| < |line| {
      assert line[k + j + |w|] == t[j + |w|];
    }
  }

  /** The word after a marker, or the fallback when only whitespace follows it. */
  lemma WordAfter(line: string, k: nat, fallback: string)
    requires k <= |line|
    ensures var r := FirstWord(line[k..]).GetOr(fallback);
      (exists j :: FirstWordAt(line, k, j, r))
      || (r == fallback && forall i :: k <= i < |line| ==> IsWhitespace(line[i]))
  {
    var t := line[k..];
    if FirstWord(t).Some? {
      FirstWordPosition(t);
      FirstWordAtShift(line, k, |t| - |TrimStart(t)|, FirstWord(t).value);
    } else {
      forall i | k <= i < |line|
        ensures IsWhitespace(line[i])
      {
        assert line[i] == t[i - k];
      }
    }
  }

  /** The name is always one non-empty word without whitespace. */
  lemma ExtractToolNameIsWord(line: string)
    ensures IsWord(ExtractToolName(line))
  {
    match Find(line, "Tool:")
    case Some(start) =>
      LowerNameIsWord("unknown");
    case None =>
      match Find(line, "Running:")
      case Some(start) =>
        LowerNameIsWord("command");
      case None =>
        LowerNameIsWord("read_file");
        LowerNameIsWord("write_file");
        LowerNameIsWord("tool");
  }

  /** A non-empty name of lower-case letters and underscores is a word. */
  lemma LowerNameIsWord(w: string)
    requires w != [] && forall i :: 0 <= i < |w| ==> 'a' <= w[i] <= 'z' || w[i] == '_'
    ensures IsWord(w)
  {
  }

  /** After the first `Tool:` the name is the next word of the line, or `unknown` when only whitespace follows. */
  lemma ExtractToolNameAfterTool(line: string)
    requires Find(line, "Tool:").Some?
    ensures var k := Find(line, "Tool:").value + 5;
      (exists j :: FirstWordAt(line, k, j, ExtractToolName(line)))
      || (ExtractToolName(line) == "unknown" && forall i :: k <= i < |line| ==> IsWhitespace(line[i]))
  {
    WordAfter(line, Find(line, "Tool:").value + 5, "unknown");
  }

  /** Without `Tool:`, after the first `Running:` the name is the next word, or `command`. */
  lemma ExtractToolNameAfterRunning(line: string)
    requires Find(line, "Tool:").None? && Find(line, "Running:").Some?
    ensures var k := Find(line, "Running:").value + 8;
      (exists j :: FirstWordAt(line, k, j, ExtractToolName(line)))
      || (ExtractToolName(line) == "command" && forall i :: k <= i < |line| ==> IsWhitespace(line[i]))
  {
    WordAfter(line, Find(line, "Running:").value + 8, "command");
  }

  /**
   * With neither marker anywhere in the line, the name is read_file when
   * "Reading" occurs somewhere, else write_file when "Writing" does, else tool.
   */
  lemma ExtractToolNameFallback(line: string)
    ensures (forall i :: !OccursAt(line, "Tool:", i)) && (forall i :: !OccursAt(line, "Running:", i)) ==>
      && (ExtractToolName(line) == "read_file" <==> exists i :: OccursAt(line, "Reading", i))
      && (ExtractToolName(line) == "write_file" <==>
            (forall i :: !OccursAt(line, "Reading", i)) && exists i :: OccursAt(line, "Writing", i))
      && (ExtractToolName(line) == "tool" <==>
            (forall i :: !OccursAt(line, "Reading", i)) && (forall i :: !OccursAt(line, "Writing", i)))
  {
    ContainsIffOccurs(line, "Tool:");
    ContainsIffOccurs(line, "Running:");
    ContainsIffOccurs(line, "Reading");
    ContainsIffOccurs(line, "Writing");
  }
}

module Settings {
  import opened Text

  /** The persisted application settings. */
  datatype AppSettings = AppSettings(
    openrouterKey: Option<string>,
    gooseModel: Option<string>,
    geminiKey: Option<string>,
    godotPath: Option<string>,
    godotMcpInstalled: Option<bool>,
    autoConnect: Option<bool>,
    lastProjectPath: Option<string>)

  /** The settings a failed load gives: everything absent. */
  const DEFAULT_SETTINGS := AppSettings(None, None, None, None, None, None, None)

  function Prefer<T>(given: Option<T>, kept: Option<T>): Option<T> {
    if given.Some? then given else kept
  }

  /** The settings written by a save: four fields taken from the request when present, the rest as stored. */
  function Merged(existing: AppSettings, incoming: AppSettings): AppSettings {
    existing.(openrouterKey := Prefer(incoming.openrouterKey, existing.openrouterKey),
              gooseModel := Prefer(incoming.gooseModel, existing.gooseModel),
              godotPath := Prefer(incoming.godotPath, existing.godotPath),
              geminiKey := Prefer(incoming.geminiKey, existing.geminiKey))
  }

  /** The merge of `save_settings_to_disk`, field by field on the loaded settings. */
  method MergeSettings(stored: AppSettings, incoming: AppSettings) returns (existing: AppSettings)
    ensures existing == Merged(stored, incoming)
  {
    existing := stored;
    if incoming.openrouterKey.Some? {
      existing := existing.(openrouterKey := incoming.openrouterKey);
    }
    if incoming.gooseModel.Some? {
      existing := existing.(gooseModel := incoming.gooseModel);
    }
    if incoming.godotPath.Some? {
      existing := existing.(godotPath := incoming.godotPath);
    }
    if incoming.geminiKey.Some? {
      existing := existing.(geminiKey := incoming.geminiKey);
    }
  }

  /**
   * Each of the four fields set in the request replaces the stored value,
   * and each one left unset keeps it. A save never clears a stored value,
   * never touches godotMcpInstalled, autoConnect or lastProjectPath, and
   * saving the same request again changes nothing; a request with nothing
   * set leaves the settings as they are.
   */
  lemma MergedProperties(existing: AppSettings, incoming: AppSettings)
    ensures var m := Merged(existing, incoming);
      && (incoming.openrouterKey.Some? ==> m.openrouterKey == incoming.openrouterKey)
      && (incoming.openrouterKey.None? ==> m.openrouterKey == existing.openrouterKey)
      && (incoming.gooseModel.Some? ==> m.gooseModel == incoming.gooseModel)
      && (incoming.gooseModel.None? ==> m.gooseModel == existing.gooseModel)
      && (incoming.geminiKey.Some? ==> m.geminiKey == incoming.geminiKey)
      && (incoming.geminiKey.None? ==> m.geminiKey == existing.geminiKey)
      && (incoming.godotPath.Some? ==> m.godotPath == incoming.godotPath)
      && (incoming.godotPath.None? ==> m.godotPath == existing.godotPath)
      && (existing.openrouterKey.Some? ==> m.openrouterKey.Some?)
      && (existing.gooseModel.Some? ==> m.gooseModel.Some?)
      && (existing.geminiKey.Some? ==> m.geminiKey.Some?)
      && (existing.godotPath.Some? ==> m.godotPath.Some?)
      && m.godotMcpInstalled == existing.godotMcpInstalled
      && m.autoConnect == existing.autoConnect
      && m.lastProjectPath == existing.lastProjectPath
      && Merged(m, incoming) == m
    ensures Merged(existing, DEFAULT_SETTINGS) == existing
  {
  }

  /** Two saves in a row equal one save of the second request laid over the first. */
  lemma MergedComposes(existing: AppSettings, first: AppSettings, second: AppSettings)
    ensures Merged(Merged(existing, first), second) == Merged(existing, Merged(first, second))
  {
  }

  /** After a failed load the file holds exactly the four fields the request set. */
  lemma MergedIntoDefault(incoming: AppSettings)
    ensures Merged(DEFAULT_SETTINGS, incoming)
         == AppSettings(incoming.openrouterKey, incoming.gooseModel, incoming.geminiKey, incoming.godotPath,
                        None, None, None)
  {
  }
}

module Playtest {
  import opened Text

  datatype JsonArg = Str(s: string) | Num(n: int)

  /** A game-control call: function name and arguments. */
  datatype GameCommand = GameCommand(func: string, args: seq<JsonArg>)

  /** The play-test action table; an empty action sends nothing. */
  function PlaytestCommand(action: string): Option<GameCommand> {
    if action == "" then None
    else Some(match action
      case "move_left" => GameCommand("move", [Str("left")])
      case "move_right" => GameCommand("move", [Str("right")])
      case "move_up" => GameCommand("move", [Str("up")])
      case "move_down" => GameCommand("move", [Str("down")])
      case "jump" => GameCommand("jump", [])
      case "stop" => GameCommand("stop", [])
      case "look_left" => GameCommand("look", [Num(-30), Num(0)])
      case "look_right" => GameCommand("look", [Num(30), Num(0)])
      case _ => GameCommand("stop", []))
  }

  const KNOWN_ACTIONS: set<string> :=
    {"move_left", "move_right", "move_up", "move_down", "jump", "stop", "look_left", "look_right"}

  /**
   * A `move_<dir>` action moves toward `<dir>`; looks turn 30 degrees
   * horizontally; every unknown action stops the character.
   */
  lemma PlaytestCommandProperties(action: string)
    ensures PlaytestCommand(action).None? <==> action == ""
    ensures PlaytestCommand(action).Some? ==>
      var c := PlaytestCommand(action).value;
      && c.func in {"move", "jump", "stop", "look"}
      && (c.func == "move" ==> |c.args| == 1 && c.args[0].Str? && action == "move_" + c.args[0].s)
      && (c.func == "look" ==> c.args == [Num(if action == "look_left" then -30 else 30), Num(0)])
      && (c.func == "jump" || c.func == "stop" ==> c.args == [])
    ensures action != "" && action !in KNOWN_ACTIONS ==> PlaytestCommand(action) == Some(GameCommand("stop", []))
  {
  }
}

module PreviewServer {
  import opened Text

  /** The file a request asks for, relative to the export directory. */
  function RequestPath(url: string): string {
    if url == "/" || url == "" then "index.html" else TrimStartChar(url, '/')
  }

  /**
   * A served path never starts with '/', and `/name` serves `name`. Other
   * components, `..` among them, pass through unchanged.
   */
  lemma RequestPathProperties(url: string, rel: string)
    ensures RequestPath(url) == [] || RequestPath(url)[0] != '/'
    ensures rel != [] && rel[0] != '/' ==> RequestPath("/" + rel) == rel && RequestPath(rel) == rel
  {
    if rel != [] && rel[0] != '/' {
      assert ("/" + rel)[1..] == rel;
    }
  }

  /** A `..` component is kept, so the joined path can leave the export directory. */
  lemma RequestPathKeepsParent()
    ensures RequestPath("/../x") == "../x"
  {
    assert "/../x"[1..] == "../x";
  }

  /** The last component of a '/'-separated path. */
  function FileName(p: string): (n: string)
    ensures '/' !in n
  {
    var parts := Split(p, '/');
    parts[|parts| - 1]
  }

  function LastIndexOf(s: string, c: char): (r: Option<nat>)
    ensures r.Some? ==> r.value < |s| && s[r.value] == c && c !in s[r.value + 1..]
    ensures r.None? ==> c !in s
  {
    if s == [] then None
    else if s[|s| - 1] == c then Some(|s| - 1)
    else
      var r := LastIndexOf(s[..|s| - 1], c);
      assert s == s[..|s| - 1] + [s[|s| - 1]];
      r
  }

  /** Rust's `Path::extension` of a file name: after the last '.', unless that dot starts the name. */
  function Extension(name: string): Option<string> {
    if name == ".." then None
    else match LastIndexOf(name, '.')
      case None => None
      case Some(i) => if i == 0 then None else Some(name[i + 1..])
  }

  /** An extension splits the name into a non-empty stem, a dot and a dot-free suffix; otherwise there is no such split. */
  lemma ExtensionDecomposes(name: string)
    ensures Extension(name).Some? ==>
      var e := Extension(name).value;
      '.' !in e && |e| < |name| - 1 && name == name[..|name| - |e| - 1] + "." + e
    ensures Extension(name).None? ==>
      name == ".." || '.' !in name || (name[0] == '.' && '.' !in name[1..])
  {
    match LastIndexOf(name, '.')
    case None =>
    case Some(i) =>
      if i != 0 && name != ".." {
        assert name == name[..i] + "." + name[i + 1..];
      }
  }

  /** The Content-Type for an extension. */
  function MimeType(ext: Option<string>): string {
    match ext
    case Some("html") => "text/html; charset=utf-8"
    case Some("js") => "application/javascript"
    case Some("wasm") => "application/wasm"
    case Some("png") => "image/png"
    case Some("ico") => "image/x-icon"
    case Some("pck") => "application/octet-stream"
    case Some("css") => "text/css"
    case _ => "application/octet-stream"
  }

  /** The Content-Type of the file served for a URL. */
  function ServedMime(url: string): string {
    MimeType(Extension(FileName(RequestPath(url))))
  }

  /** The root URL is served as HTML; an unlisted extension or none at all falls back to a byte stream. */
  lemma ServedMimeProperties(ext: Option<string>)
    ensures ServedMime("/") == "text/html; charset=utf-8" && ServedMime("") == ServedMime("/")
    ensures ext.None? || ext.value !in {"html", "js", "wasm", "png", "ico", "css"} ==>
      MimeType(ext) == "application/octet-stream"
  {
    IndexExtension();
    assert RequestPath("/") == "index.html" && RequestPath("") == "index.html";
  }

  lemma IndexExtension()
    ensures Extension(FileName("index.html")) == Some("html")
  {
    var n := "index.html";
    assert '/' !in n;
    assert Split(n, '/') == [n];
    assert FileName(n) == n;
    assert n[5] == '.' && '.' !in n[6..];
    assert LastIndexOf(n, '.') == Some(5);
    assert n[6..] == "html";
  }
}

module FileWatcher {
  import opened Text

  const WATCHED_EXTENSIONS: seq<string> := [".gd", ".tscn", ".tres", ".png", ".jpg", ".wav", ".ogg", ".godot"]

  predicate HasWatchedExtension(p: string) {
    exists k :: 0 <= k < |WATCHED_EXTENSIONS| && EndsWith(p, WATCHED_EXTENSIONS[k])
  }

  /** A changed path that triggers a rebuild: not hidden, not under `.tav`, not the export presets, a watched type. */
  predicate IsRelevant(p: string) {
    !Contains(p, "/.") && !Contains(p, "\\.") && !Contains(p, ".tav")
    && !EndsWith(p, "export_presets.cfg")
    && HasWatchedExtension(p)
  }

  /** The relevant changes, in event order. */
  function RelevantChanges(paths: seq<string>): (r: seq<string>)
    ensures forall p :: p in r <==> p in paths && IsRelevant(p)
    ensures |r| <= |paths|
  {
    if paths == [] then []
    else (if IsRelevant(paths[0]) then [paths[0]] else []) + RelevantChanges(paths[1..])
  }

  /**
   * The export-presets test never decides anything: a path ending in
   * `export_presets.cfg` has none of the watched extensions.
   */
  lemma PresetsTestRedundant(p: string)
    ensures IsRelevant(p) <==>
      !Contains(p, "/.") && !Contains(p, "\\.") && !Contains(p, ".tav") && HasWatchedExtension(p)
  {
    forall k | 0 <= k < |WATCHED_EXTENSIONS|
      ensures !(EndsWith(p, "export_presets.cfg") && EndsWith(p, WATCHED_EXTENSIONS[k]))
    {
      var e := WATCHED_EXTENSIONS[k];
      var n := |p|;
      assert EndsWith(p, e) ==> p[n - 2..] == p[n - |e|..][|e| - 2..] == e[|e| - 2..];
      assert EndsWith(p, "export_presets.cfg") ==> p[n - 2..] == p[n - 18..][16..] == "fg";
      assert e[|e| - 2..] != "fg";
    }
  }

  /** Nothing under a `.tav` directory or hidden path ever triggers a rebuild. */
  lemma TavAndHiddenIgnored(dir: string, rest: string)
    ensures !IsRelevant(dir + ".tav" + rest)
    ensures !IsRelevant(dir + "/." + rest)
  {
    assert OccursAt(dir + ".tav" + rest, ".tav", |dir|);
    OccursGivesContains(dir + ".tav" + rest, ".tav", |dir|);
    assert OccursAt(dir + "/." + rest, "/.", |dir|);
    OccursGivesContains(dir + "/." + rest, "/.", |dir|);
  }
}
