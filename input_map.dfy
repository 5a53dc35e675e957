/**
 * The project.godot input-map reader behind the control list shown to the
 * play-tester: a line-driven scan of the `[input]` section, a cursor scan of
 * each action block for `physical_keycode":<digits>`, and two lookup tables.
 */
module InputMap {
  import opened Text

  // ---------------------------------------------------------------------------
  // Tables
  // ---------------------------------------------------------------------------

  /** Godot physical key codes with a display name: letters A..Z (65..90) and a fixed list of specials. */
  function KeycodeToName(code: nat): Option<string> {
    if 65 <= code <= 90 then Some([code as char])
    else if code == 32 then Some("Space")
    else if code == 16777217 then Some("Escape")
    else if code == 16777218 then Some("Tab")
    else if code == 16777220 then Some("Enter")
    else if code == 16777221 then Some("Shift")
    else if code == 16777238 then Some("Ctrl")
    else if code == 16777240 then Some("Alt")
    else if code == 4194319 then Some("Left")
    else if code == 4194320 then Some("Up")
    else if code == 4194321 then Some("Right")
    else if code == 4194322 then Some("Down")
    else None
  }

  const SPECIAL_CODES: set<nat> :=
    {32, 16777217, 16777218, 16777220, 16777221, 16777238, 16777240, 4194319, 4194320, 4194321, 4194322}

  const SPECIAL_NAMES: set<string> :=
    {"Space", "Escape", "Tab", "Enter", "Shift", "Ctrl", "Alt", "Left", "Up", "Right", "Down"}

  /** A display name the table can produce: one capital letter or one of the specials. */
  predicate IsKeyName(x: string) {
    (|x| == 1 && 'A' <= x[0] <= 'Z') || x in SPECIAL_NAMES
  }

  lemma KeycodeNameIsKeyName(c: nat)
    ensures KeycodeToName(c).Some? ==> IsKeyName(KeycodeToName(c).value)
  {
  }

  /** The table accepts exactly the letters and the specials, and no two codes share a name. */
  lemma KeycodeTable(a: nat, b: nat)
    ensures KeycodeToName(a).Some? <==> (65 <= a <= 90 || a in SPECIAL_CODES)
    ensures KeycodeToName(a).Some? && KeycodeToName(a) == KeycodeToName(b) ==> a == b
    ensures 65 <= a <= 90 ==> KeycodeToName(a) == Some(['A' + (a - 65) as char])
  {
    if KeycodeToName(a).Some? && KeycodeToName(a) == KeycodeToName(b) {
      if 65 <= a <= 90 && 65 <= b <= 90 {
        assert [a as char][0] == [b as char][0];
      }
    }
  }

  /** The key bound to the `sprint` action by the project generator has no name in the table. */
  lemma SprintKeyUnnamed()
    ensures KeycodeToName(4194325) == None
  {
  }

  /** Every `_` replaced by a space. */
  function UnderscoresToSpaces(s: string): (r: string)
    ensures |r| == |s|
    ensures forall i :: 0 <= i < |s| ==> r[i] == (if s[i] == '_' then ' ' else s[i])
  {
    if s == [] then [] else [if s[0] == '_' then ' ' else s[0]] + UnderscoresToSpaces(s[1..])
  }

  /** A human description of an action: fixed texts for the common names, otherwise the name with spaces. */
  function ActionToDescription(action: string): string {
    match action
    case "move_left" => "Move character left"
    case "move_right" => "Move character right"
    case "move_up" => "Move character forward"
    case "move_forward" => "Move character forward"
    case "move_down" => "Move character backward"
    case "move_back" => "Move character backward"
    case "jump" => "Make character jump"
    case "attack" => "Attack action"
    case "interact" => "Interact with objects"
    case "sprint" => "Sprint/run faster"
    case "run" => "Sprint/run faster"
    case "crouch" => "Crouch down"
    case _ => UnderscoresToSpaces(action)
  }

  const DESCRIBED_ACTIONS: set<string> :=
    {"move_left", "move_right", "move_up", "move_forward", "move_down", "move_back",
     "jump", "attack", "interact", "sprint", "run", "crouch"}

  const FIXED_DESCRIPTIONS: set<string> :=
    {"Move character left", "Move character right", "Move character forward", "Move character backward",
     "Make character jump", "Attack action", "Interact with objects", "Sprint/run faster", "Crouch down"}

  lemma FixedDescriptionsClean()
    ensures forall t :: t in FIXED_DESCRIPTIONS ==> '_' !in t
  {
  }

  /** A listed action gets one of the fixed texts, an unlisted one its own name with spaces. */
  lemma DescriptionKinds(action: string)
    ensures action in DESCRIBED_ACTIONS ==> ActionToDescription(action) in FIXED_DESCRIPTIONS
    ensures action !in DESCRIBED_ACTIONS ==> ActionToDescription(action) == UnderscoresToSpaces(action)
  {
    var d := ActionToDescription(action);
    if action == "move_left" {
      assert d in FIXED_DESCRIPTIONS;
    } else if action == "move_right" {
      assert d in FIXED_DESCRIPTIONS;
    } else if action == "move_up" {
      assert d in FIXED_DESCRIPTIONS;
    } else if action == "move_forward" {
      assert d in FIXED_DESCRIPTIONS;
    } else if action == "move_down" {
      assert d in FIXED_DESCRIPTIONS;
    } else if action == "move_back" {
      assert d in FIXED_DESCRIPTIONS;
    } else if action == "jump" {
      assert d in FIXED_DESCRIPTIONS;
    } else if action == "attack" {
      assert d in FIXED_DESCRIPTIONS;
    } else if action == "interact" {
      assert d in FIXED_DESCRIPTIONS;
    } else if action == "sprint" {
      assert d in FIXED_DESCRIPTIONS;
    } else if action == "run" {
      assert d in FIXED_DESCRIPTIONS;
    } else if action == "crouch" {
      assert d in FIXED_DESCRIPTIONS;
    } else {
      assert action !in DESCRIBED_ACTIONS;
    }
  }

  /** A description never contains an underscore; an unlisted action keeps its length and letters. */
  lemma DescriptionHasNoUnderscore(action: string)
    ensures '_' !in ActionToDescription(action)
    ensures action !in DESCRIBED_ACTIONS ==>
      |ActionToDescription(action)| == |action|
      && forall i :: 0 <= i < |action| && action[i] != '_' ==> ActionToDescription(action)[i] == action[i]
  {
    DescriptionKinds(action);
    FixedDescriptionsClean();
  }

  // ---------------------------------------------------------------------------
  // Key scan of one action block
  // ---------------------------------------------------------------------------

  const KEYCODE_TAG: string := "physical_keycode\":"

  /**
   * Rust's `block[from..].find(|c| !c.is_ascii_digit())`, as an absolute
   * index: where the digit run starting at `from` ends, or None when the
   * digits reach the end of the block.
   */
  function DigitRunEnd(block: string, from: nat): (r: Option<nat>)
    requires from <= |block|
    ensures r.Some? ==> from <= r.value < |block| && !IsDigit(block[r.value])
                        && AllDigits(block[from..r.value])
    ensures r.None? ==> AllDigits(block[from..])
    decreases |block| - from
  {
    if from == |block| then None
    else if !IsDigit(block[from]) then Some(from)
    else DigitRunEnd(block, from + 1)
  }

  /** The key code written right at `start`: a digit run followed by another character, within u32. */
  function CodeAt(block: string, start: nat): Option<nat>
    requires start <= |block|
  {
    match DigitRunEnd(block, start)
    case None => None
    case Some(e) => ParseUnsigned(block[start..e], U32_LIMIT)
  }

  /** The name of the key code written at `start`, when it parses and the table knows it. */
  function NameAt(block: string, start: nat): (r: Option<string>)
    requires start <= |block|
    ensures r.Some? ==> IsKeyName(r.value)
  {
    match CodeAt(block, start)
    case None => None
    case Some(c) => KeycodeNameIsKeyName(c); KeycodeToName(c)
  }

  /** The names read after each `physical_keycode":` at or after `pos`, in order, repeats included. */
  function ScannedNames(block: string, pos: nat): (names: seq<string>)
    requires pos <= |block|
    ensures forall x :: x in names ==> IsKeyName(x)
    decreases |block| - pos
  {
    match FindFrom(block, KEYCODE_TAG, pos)
    case None => []
    case Some(start) =>
      var codeStart := start + |KEYCODE_TAG|;
      (if NameAt(block, codeStart).Some? then [NameAt(block, codeStart).value] else [])
      + ScannedNames(block, codeStart)
  }

  /** `acc` followed by the elements of `xs` not seen before, in order of first occurrence. */
  function AppendNew(acc: seq<string>, xs: seq<string>): (r: seq<string>)
    ensures |acc| <= |r| && r[..|acc|] == acc
    decreases |xs|
  {
    if xs == [] then acc
    else AppendNew(if xs[0] in acc then acc else acc + [xs[0]], xs[1..])
  }

  predicate Distinct(s: seq<string>) {
    forall i, j :: 0 <= i < j < |s| ==> s[i] != s[j]
  }

  /** Appending unseen elements keeps the list free of repeats and loses nothing. */
  lemma {:induction false} AppendNewProperties(acc: seq<string>, xs: seq<string>)
    requires Distinct(acc)
    ensures Distinct(AppendNew(acc, xs))
    ensures forall x :: x in AppendNew(acc, xs) <==> x in acc || x in xs
    decreases |xs|
  {
    if xs != [] {
      var acc' := if xs[0] in acc then acc else acc + [xs[0]];
      AppendNewProperties(acc', xs[1..]);
      assert forall x :: x in xs <==> x == xs[0] || x in xs[1..];
    }
  }

  /** Mouse buttons: LeftClick, else RightClick, when the block has a mouse-button event. */
  function MouseKeys(block: string): seq<string> {
    if !Contains(block, "InputEventMouseButton") then []
    else if Contains(block, "button_index\":1") then ["LeftClick"]
    else if Contains(block, "button_index\":2") then ["RightClick"]
    else []
  }

  /** The keys of a block: the known key names in order of first occurrence, then at most one mouse button. */
  /** Where `x` first occurs in `xs`. */
  function FirstIndex(xs: seq<string>, x: string): (i: nat)
    requires x in xs
    ensures i < |xs| && xs[i] == x && x !in xs[..i]
  {
    if xs[0] == x then 0 else 1 + FirstIndex(xs[1..], x)
  }

  /**
   * The names `AppendNew` adds come from `xs`, were not in `acc`, and are in
   * the order of their first occurrence in `xs`.
   */
  lemma {:induction false} AppendNewOrder(acc: seq<string>, xs: seq<string>)
    ensures var r := AppendNew(acc, xs);
      && (forall k :: |acc| <= k < |r| ==> r[k] in xs && r[k] !in acc)
      && forall i, j :: |acc| <= i < j < |r| ==> FirstIndex(xs, r[i]) < FirstIndex(xs, r[j])
    decreases |xs|
  {
    if xs != [] {
      var x, t := xs[0], xs[1..];
      var acc' := if x in acc then acc else acc + [x];
      AppendNewOrder(acc', t);
      var r := AppendNew(acc, xs);
      assert r == AppendNew(acc', t);
      forall k | |acc'| <= k < |r|
        ensures r[k] in xs && FirstIndex(xs, r[k]) == 1 + FirstIndex(t, r[k])
      {
        assert r[k] in t && r[k] != x;
      }
      if x !in acc {
        assert r[..|acc'|] == acc';
        assert r[|acc|] == x;
      }
    }
  }

  function BlockKeys(block: string): seq<string> {
    AppendNew([], ScannedNames(block, 0)) + MouseKeys(block)
  }

  /** `parse_keys_from_block`: a cursor scan that only moves forward. */
  method ParseKeysFromBlock(block: string) returns (keys: seq<string>)
    ensures keys == BlockKeys(block)
  {
    keys := [];
    var pos := 0;
    var found := FindFrom(block, KEYCODE_TAG, pos);
    while found.Some?
      invariant pos <= |block| && found == FindFrom(block, KEYCODE_TAG, pos)
      invariant AppendNew(keys, ScannedNames(block, pos)) == AppendNew([], ScannedNames(block, 0))
      decreases |block| - pos
    {
      var codeStart := found.value + |KEYCODE_TAG|;
      ghost var rest := ScannedNames(block, codeStart);
      var end := DigitRunEnd(block, codeStart);
      var name: Option<string> := None;
      if end.Some? {
        var code := ParseUnsigned(block[codeStart..end.value], U32_LIMIT);
        if code.Some? {
          name := KeycodeToName(code.value);
        }
      }
      assert name == NameAt(block, codeStart);
      if name.Some? {
        assert ScannedNames(block, pos) == [name.value] + rest;
        assert ([name.value] + rest)[1..] == rest;
        if name.value !in keys {
          keys := keys + [name.value];
        }
      } else {
        assert ScannedNames(block, pos) == rest;
      }
      pos := codeStart;
      found := FindFrom(block, KEYCODE_TAG, pos);
    }
    if Contains(block, "InputEventMouseButton") {
      if Contains(block, "button_index\":1") {
        keys := keys + ["LeftClick"];
      } else if Contains(block, "button_index\":2") {
        keys := keys + ["RightClick"];
      }
    }
  }

  /**
   * The keys of a block are pairwise distinct; each is a scanned key name or
   * the one mouse button; a block with no known key code and no mouse event
   * has no keys.
   */
  lemma BlockKeysProperties(block: string)
    ensures Distinct(BlockKeys(block))
    ensures forall x :: x in BlockKeys(block) <==> x in ScannedNames(block, 0) || x in MouseKeys(block)
    ensures |MouseKeys(block)| <= 1
    ensures ScannedNames(block, 0) == [] && !Contains(block, "InputEventMouseButton") ==> BlockKeys(block) == []
    ensures var scanned := ScannedNames(block, 0);
      var keys := AppendNew([], scanned);
      && keys == BlockKeys(block)[..|keys|]
      && (forall k :: 0 <= k < |keys| ==> keys[k] in scanned)
      && forall i, j :: 0 <= i < j < |keys| ==> FirstIndex(scanned, keys[i]) < FirstIndex(scanned, keys[j])
  {
    var names := ScannedNames(block, 0);
    AppendNewProperties([], names);
    AppendNewOrder([], names);
    var known := AppendNew([], names);
    var mouse := MouseKeys(block);
    MouseKeysAreNotKeyNames(block);
    assert forall x :: x in mouse ==> x !in known;
    DistinctWithOneMore(known, mouse);
    if names == [] {
      assert known == [];
    }
  }

  /** A mouse button is never a key name, so it cannot repeat a scanned key. */
  lemma MouseKeysAreNotKeyNames(block: string)
    ensures |MouseKeys(block)| <= 1
    ensures forall x :: x in MouseKeys(block) ==> !IsKeyName(x)
  {
    assert !IsKeyName("LeftClick") && !IsKeyName("RightClick");
  }

  lemma DistinctWithOneMore(s: seq<string>, t: seq<string>)
    requires Distinct(s) && |t| <= 1
    requires forall x :: x in t ==> x !in s
    ensures Distinct(s + t)
  {
    if |t| == 1 {
      forall i, j | 0 <= i < j < |s + t|
        ensures (s + t)[i] != (s + t)[j]
      {
        assert (s + t)[i] == s[i];
        if j == |s| {
          assert (s + t)[j] == t[0] && t[0] in t;
        } else {
          assert (s + t)[j] == s[j];
        }
      }
    } else {
      assert s + t == s;
    }
  }

  // ---------------------------------------------------------------------------
  // The [input] section scan
  // ---------------------------------------------------------------------------

  datatype InputMapping = InputMapping(action: string, keys: seq<string>, description: string)

  /** The line scan's variables after some lines. */
  datatype ScanState = ScanState(inSection: bool, current: Option<string>, block: string,
                                 mappings: seq<InputMapping>)

  const START: ScanState := ScanState(false, None, "", [])

  predicate IsSectionHeader(t: string) {
    StartsWith(t, "[") && EndsWith(t, "]")
  }

  /** The mapping a finished block yields: one with its keys, or none when it has no keys. */
  function Emit(action: string, block: string): seq<InputMapping> {
    var keys := BlockKeys(block);
    if keys == [] then [] else [InputMapping(action, keys, ActionToDescription(action))]
  }

  /** What is still pending is emitted. */
  function Flush(st: ScanState): seq<InputMapping> {
    if st.current.Some? then Emit(st.current.value, st.block) else []
  }

  /** A line in the section: `name={` starts an action (emitting the pending one), other text extends the block. */
  function Extend(st: ScanState, t: string): ScanState {
    match Find(t, "={")
    case Some(eq) => ScanState(st.inSection, Some(t[..eq]), t[eq..], st.mappings + Flush(st))
    case None => if st.current.Some? then st.(block := st.block + t) else st
  }

  /** A line ending in `}` closes the pending action. */
  function CloseIfEnds(st: ScanState, t: string): ScanState {
    if st.current.Some? && EndsWith(t, "}") then ScanState(st.inSection, None, "", st.mappings + Flush(st))
    else st
  }

  /**
   * One trimmed line: `[input]` opens the section, any other `[...]` closes
   * it, lines outside the section are skipped.
   */
  function Step(st: ScanState, t: string): ScanState {
    if t == "[input]" then st.(inSection := true)
    else if IsSectionHeader(t) then st.(inSection := false)
    else if !st.inSection then st
    else CloseIfEnds(Extend(st, t), t)
  }

  /** The scan over trimmed lines. */
  function Run(ts: seq<string>): ScanState {
    if ts == [] then START else Step(Run(ts[..|ts| - 1]), ts[|ts| - 1])
  }

  function TrimAll(lines: seq<string>): (ts: seq<string>)
    ensures |ts| == |lines| && forall i :: 0 <= i < |lines| ==> ts[i] == Trim(lines[i])
  {
    if lines == [] then [] else [Trim(lines[0])] + TrimAll(lines[1..])
  }

  /** The mappings read from the text of project.godot, each line trimmed first. */
  function InputMappings(content: string): seq<InputMapping> {
    Run(TrimAll(Lines(content))).mappings
  }

  /** Ends an action's block: the action is listed when its block names at least one key. */
  method PushMapping(mappings: seq<InputMapping>, action: string, block: string)
    returns (r: seq<InputMapping>)
    ensures r == mappings + Emit(action, block)
  {
    var keys := ParseKeysFromBlock(block);
    r := mappings;
    if keys != [] {
      r := r + [InputMapping(action, keys, ActionToDescription(action))];
    }
  }

  /** One pass of `get_input_mappings`' line loop over the trimmed line `t`. */
  method ScanLine(inSection: bool, current: Option<string>, block: string, mappings: seq<InputMapping>, t: string)
    returns (newInSection: bool, newCurrent: Option<string>, newBlock: string, newMappings: seq<InputMapping>)
    ensures ScanState(newInSection, newCurrent, newBlock, newMappings)
      == Step(ScanState(inSection, current, block, mappings), t)
  {
    newInSection, newCurrent, newBlock, newMappings := inSection, current, block, mappings;
    if t == "[input]" {
      newInSection := true;
    } else if StartsWith(t, "[") && EndsWith(t, "]") {
      newInSection := false;
    } else if inSection {
      var eq := Find(t, "={");
      if eq.Some? {
        if current.Some? {
          newMappings := PushMapping(mappings, current.value, block);
        }
        newCurrent := Some(t[..eq.value]);
        newBlock := t[eq.value..];
      } else if current.Some? {
        newBlock := block + t;
      }
      assert ScanState(newInSection, newCurrent, newBlock, newMappings)
        == Extend(ScanState(inSection, current, block, mappings), t);
      if newCurrent.Some? && EndsWith(t, "}") {
        newMappings := PushMapping(newMappings, newCurrent.value, newBlock);
        newCurrent := None;
        newBlock := "";
      }
    }
  }

  /** `get_input_mappings` on the project's file (None when project.godot does not exist). */
  method GetInputMappings(projectGodot: Option<string>) returns (r: Result<seq<InputMapping>, string>)
    ensures projectGodot.None? ==> r == Err("project.godot not found")
    ensures projectGodot.Some? ==> r == Ok(InputMappings(projectGodot.value))
  {
    if projectGodot.None? {
      return Err("project.godot not found");
    }
    var lines := Lines(projectGodot.value);
    ghost var ts := TrimAll(lines);
    var mappings: seq<InputMapping> := [];
    var inSection := false;
    var current: Option<string> := None;
    var block := "";
    for i := 0 to |lines|
      invariant ScanState(inSection, current, block, mappings) == Run(ts[..i])
    {
      RunStep(ts, i);
      inSection, current, block, mappings := ScanLine(inSection, current, block, mappings, Trim(lines[i]));
    }
    assert ts[..|lines|] == ts;
    return Ok(mappings);
  }

  lemma RunStep(ts: seq<string>, i: nat)
    requires i < |ts|
    ensures Run(ts[..i + 1]) == Step(Run(ts[..i]), ts[i])
  {
    assert ts[..i + 1][..i] == ts[..i];
  }

  predicate WellFormed(m: InputMapping) {
    m.keys != [] && Distinct(m.keys) && m.description == ActionToDescription(m.action)
  }

  lemma FlushWellFormed(st: ScanState)
    ensures forall m :: m in Flush(st) ==> WellFormed(m)
  {
    if st.current.Some? {
      BlockKeysProperties(st.block);
    }
  }

  /** Every mapping read has a non-empty list of distinct keys and the action's description. */
  lemma {:induction false} MappingsWellFormed(ts: seq<string>)
    ensures forall m :: m in Run(ts).mappings ==> WellFormed(m)
  {
    if ts != [] {
      var st := Run(ts[..|ts| - 1]);
      MappingsWellFormed(ts[..|ts| - 1]);
      FlushWellFormed(st);
      FlushWellFormed(Extend(st, ts[|ts| - 1]));
    }
  }

  /** Without a line `[input]` nothing is read. */
  lemma {:induction false} NoInputSectionNoMappings(ts: seq<string>)
    requires forall i :: 0 <= i < |ts| ==> ts[i] != "[input]"
    ensures Run(ts) == START
  {
    if ts != [] {
      NoInputSectionNoMappings(ts[..|ts| - 1]);
    }
  }

  lemma StepKeepsMappings(st: ScanState, t: string)
    ensures st.mappings <= Step(st, t).mappings
  {
  }

  lemma RunKeepsMappings(ts: seq<string>)
    requires ts != []
    ensures Run(ts[..|ts| - 1]).mappings <= Run(ts).mappings
  {
    var st, t := Run(ts[..|ts| - 1]), ts[|ts| - 1];
    StepKeepsMappings(st, t);
    assert Run(ts) == Step(st, t);
  }

  lemma PrefixTransitive(a: seq<InputMapping>, b: seq<InputMapping>, c: seq<InputMapping>)
    requires a <= b && b <= c
    ensures a <= c
  {
    assert c[..|a|] == b[..|a|];
  }

  /** Mappings are only ever appended: those read from the first k lines begin those read from all. */
  lemma {:induction false} MappingsInFileOrder(ts: seq<string>, k: nat)
    requires k <= |ts|
    ensures Run(ts[..k]).mappings <= Run(ts).mappings
    decreases |ts| - k
  {
    if k < |ts| {
      var prev := ts[..|ts| - 1];
      MappingsInFileOrder(prev, k);
      assert prev[..k] == ts[..k];
      RunKeepsMappings(ts);
      PrefixTransitive(Run(ts[..k]).mappings, Run(prev).mappings, Run(ts).mappings);
    } else {
      assert ts[..k] == ts;
    }
  }

  // Which lines are inside the [input] section.

  /** Line j opens `[input]` and no section header follows it. */
  ghost predicate OpensLastSection(ts: seq<string>, j: int) {
    0 <= j < |ts| && ts[j] == "[input]" && forall k :: j < k < |ts| ==> !IsSectionHeader(ts[k])
  }

  /** After `ts`, the last section header seen was `[input]`. */
  ghost predicate LastHeaderIsInput(ts: seq<string>) {
    exists j :: OpensLastSection(ts, j)
  }

  /** Line i defines action `a` (`a={...`) and lies inside an `[input]` section. */
  ghost predicate DefinedInSection(ts: seq<string>, i: int, a: string) {
    && 0 <= i < |ts|
    && LastHeaderIsInput(ts[..i])
    && !IsSectionHeader(ts[i])
    && Find(ts[i], "={").Some?
    && ts[i][..Find(ts[i], "={").value] == a
  }

  ghost predicate Defined(ts: seq<string>, a: string) {
    exists i :: DefinedInSection(ts, i, a)
  }

  lemma DefinedExtends(ts: seq<string>, t: string, a: string)
    requires Defined(ts, a)
    ensures Defined(ts + [t], a)
  {
    var i :| DefinedInSection(ts, i, a);
    assert (ts + [t])[..i] == ts[..i];
    assert DefinedInSection(ts + [t], i, a);
  }

  lemma LastHeaderStep(ts: seq<string>, t: string)
    ensures t == "[input]" ==> LastHeaderIsInput(ts + [t])
    ensures t != "[input]" && IsSectionHeader(t) ==> !LastHeaderIsInput(ts + [t])
    ensures !IsSectionHeader(t) ==> (LastHeaderIsInput(ts + [t]) <==> LastHeaderIsInput(ts))
  {
    var ts' := ts + [t];
    if t == "[input]" {
      assert OpensLastSection(ts', |ts|);
    } else if IsSectionHeader(t) {
      assert ts'[|ts|] == t;
      forall j | 0 <= j < |ts|
        ensures !OpensLastSection(ts', j)
      {
        assert IsSectionHeader(ts'[|ts|]);
      }
    } else {
      if LastHeaderIsInput(ts) {
        var j :| OpensLastSection(ts, j);
        assert OpensLastSection(ts', j);
      }
      if LastHeaderIsInput(ts') {
        var j :| OpensLastSection(ts', j);
        assert j < |ts| by {
          assert IsSectionHeader("[input]");
        }
        forall k | j < k < |ts|
          ensures !IsSectionHeader(ts[k])
        {
          assert ts'[k] == ts[k];
        }
        assert OpensLastSection(ts, j);
      }
    }
  }

  /**
   * Every action read is named on a `name={` line that lies after a line
   * `[input]` with no other `[...]` line in between; the pending action too,
   * and the scan is in the section exactly when the last header was `[input]`.
   */
  lemma {:induction false} ActionsFromInputSection(ts: seq<string>)
    ensures Run(ts).inSection <==> LastHeaderIsInput(ts)
    ensures Run(ts).current.Some? ==> Defined(ts, Run(ts).current.value)
    ensures forall m :: m in Run(ts).mappings ==> Defined(ts, m.action)
  {
    if ts != [] {
      var n := |ts|;
      var prev := ts[..n - 1];
      var t := ts[n - 1];
      assert ts == prev + [t];
      ActionsFromInputSection(prev);
      LastHeaderStep(prev, t);
      forall a | Defined(prev, a)
        ensures Defined(ts, a)
      {
        DefinedExtends(prev, t, a);
      }
      var st := Run(prev);
      StepNames(st, t);
      if t != "[input]" && !IsSectionHeader(t) && st.inSection && Find(t, "={").Some? {
        assert DefinedInSection(ts, n - 1, t[..Find(t, "={").value]);
      }
    }
  }

  /** The action a line `a={...` inside the section names. */
  predicate NamesAction(st: ScanState, t: string, a: string) {
    t != "[input]" && !IsSectionHeader(t) && st.inSection && Find(t, "={").Some?
    && a == t[..Find(t, "={").value]
  }

  /**
   * One line names at most one new action, the one it defines inside the
   * section; every mapping it emits is for the action that was pending or
   * for that new one.
   */
  lemma StepNames(st: ScanState, t: string)
    ensures var st' := Step(st, t);
      st'.current.Some? ==> st'.current == st.current || NamesAction(st, t, st'.current.value)
    ensures var st' := Step(st, t);
      st'.inSection == (if t == "[input]" then true else if IsSectionHeader(t) then false else st.inSection)
    ensures forall m :: m in Step(st, t).mappings ==>
      m in st.mappings || (st.current.Some? && m.action == st.current.value) || NamesAction(st, t, m.action)
  {
    if t != "[input]" && !IsSectionHeader(t) && st.inSection {
      var e := Extend(st, t);
      FlushNames(st);
      FlushNames(e);
      assert e.current.Some? ==> e.current == st.current || NamesAction(st, t, e.current.value);
      assert forall m :: m in e.mappings ==>
        m in st.mappings || (st.current.Some? && m.action == st.current.value);
      assert Step(st, t) == CloseIfEnds(e, t);
    }
  }

  /** What a flush emits is for the pending action. */
  lemma FlushNames(st: ScanState)
    ensures forall m :: m in Flush(st) ==> st.current.Some? && m.action == st.current.value
  {
  }
}
