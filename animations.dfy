// The built-in animation catalog and the AnimationTree scene generator of
// `src-tauri/src/animations.rs`, with the pack lookup that the
// `setup_animation_library` command performs on the catalog.

module Animations {
  import opened Text

  // ---------------------------------------------------------------------------
  // Catalog entities
  // ---------------------------------------------------------------------------

  /** Where a pack is fetched from; the serialised form tags each variant with `type`. */
  datatype AnimationSource =
    | Url(url: string)
    | GitHub(repo: string, path: string)
    | Itch(page: string, file: string)
    | Bundled(assetName: string)

  /** One clip: `duration` is an f32 in seconds, held here as a real. */
  datatype AnimationInfo = AnimationInfo(
    name: string,
    file: string,
    loopMode: string,
    duration: real,
    tags: seq<string>)

  datatype AnimationPack = AnimationPack(
    id: string,
    name: string,
    description: string,
    category: string,
    animations: seq<AnimationInfo>,
    source: AnimationSource,
    license: string,
    rigType: string,
    downloadUrl: Option<string>)

  // ---------------------------------------------------------------------------
  // The catalog, one pack per function (long texts are written as joined
  // pieces, which the verifier handles far more cheaply than one literal)
  // ---------------------------------------------------------------------------

  function UniversalLibraryClips(): seq<AnimationInfo> {
    [
      AnimationInfo("Idle", "Idle.glb", "loop", 2.0, ["idle", "locomotion"]),
      AnimationInfo("Walk_F", "Walk_F.glb", "loop", 1.0, ["walk", "forward", "locomotion"]),
      AnimationInfo("Walk_B", "Walk_B.glb", "loop", 1.0, ["walk", "backward", "locomotion"]),
      AnimationInfo("Walk_L", "Walk_L.glb", "loop", 1.0, ["walk", "strafe", "locomotion"]),
      AnimationInfo("Walk_R", "Walk_R.glb", "loop", 1.0, ["walk", "strafe", "locomotion"]),
      AnimationInfo("Jog_F", "Jog_F.glb", "loop", 0.7, ["jog", "run", "locomotion"]),
      AnimationInfo("Sprint_F", "Sprint_F.glb", "loop", 0.5, ["sprint", "run", "locomotion"]),
      AnimationInfo("Jump", "Jump.glb", "once", 0.5, ["jump", "air"]),
      AnimationInfo("Jump_Idle", "Jump_Idle.glb", "loop", 0.5, ["fall", "air"]),
      AnimationInfo("Jump_Land", "Jump_Land.glb", "once", 0.3, ["land"]),
      AnimationInfo("Crouch_Idle", "Crouch_Idle.glb", "loop", 2.0, ["crouch", "idle"]),
      AnimationInfo("Crouch_Walk_F", "Crouch_Walk_F.glb", "loop", 1.2, ["crouch", "walk"])
    ]
  }

  function UniversalLibrary(): AnimationPack {
    AnimationPack(
      "quaternius-ual",
      "Quaternius Universal " + "Animation Library",
      "120+ CC0 humanoid animations " + "on a universal rig. " + "Locomotion, combat, " + "emotes, and more. Godot-" + "ready.",
      "complete",
      UniversalLibraryClips(),
      Itch("quaternius/universal-" + "animation-library", "Universal_Animation_" + "Library.zip"),
      "CC0",
      "humanoid-universal",
      Some("https://quaternius.itch." + "io/universal-animation-" + "library"))
  }

  function UniversalLibrary2Clips(): seq<AnimationInfo> {
    [
      AnimationInfo("Vault", "Vault.glb", "once", 0.8, ["parkour", "vault"]),
      AnimationInfo("Climb", "Climb.glb", "once", 1.2, ["parkour", "climb"]),
      AnimationInfo("Roll", "Roll.glb", "once", 0.6, ["parkour", "roll", "dodge"]),
      AnimationInfo("Sword_Slash_1", "Sword_Slash_1.glb", "once", 0.5, ["combat", "melee", "sword"]),
      AnimationInfo("Sword_Slash_2", "Sword_Slash_2.glb", "once", 0.5, ["combat", "melee", "sword"]),
      AnimationInfo("Punch", "Punch.glb", "once", 0.4, ["combat", "melee", "unarmed"]),
      AnimationInfo("Block", "Block.glb", "once", 0.3, ["combat", "defense"]),
      AnimationInfo("Pick_Up", "Pick_Up.glb", "once", 0.8, ["interact", "pickup"]),
      AnimationInfo("Use", "Use.glb", "once", 0.5, ["interact", "use"])
    ]
  }

  function UniversalLibrary2(): AnimationPack {
    AnimationPack(
      "quaternius-ual2",
      "Quaternius Universal " + "Animation Library 2",
      "130+ additional CC0 " + "animations: parkour, " + "melee combos, farming, " + "fishing, zombie locomotion.",
      "extended",
      UniversalLibrary2Clips(),
      Itch("quaternius/universal-" + "animation-library-2", "Universal_Animation_" + "Library_2.zip"),
      "CC0",
      "humanoid-universal",
      Some("https://quaternius.itch." + "io/universal-animation-" + "library-2"))
  }

  function MannequinClips(): seq<AnimationInfo> {
    [
      AnimationInfo("Idle", "Idle.glb", "loop", 2.0, ["idle"]),
      AnimationInfo("Walk", "Walk.glb", "loop", 1.0, ["walk"]),
      AnimationInfo("Run", "Run.glb", "loop", 0.6, ["run"]),
      AnimationInfo("Jump", "Jump.glb", "once", 1.0, ["jump"])
    ]
  }

  function Mannequin(): AnimationPack {
    AnimationPack(
      "quaternius-mannequin",
      "Quaternius Animated " + "Mannequin",
      "Simple animated mannequin " + "character with basic " + "locomotion. Great for " + "prototyping.",
      "starter",
      MannequinClips(),
      Url("https://quaternius.com/" + "packs/ultimateanimatedcharacter." + "html"),
      "CC0",
      "humanoid",
      Some("https://quaternius.com/" + "packs/ultimateanimatedcharacter." + "html"))
  }

  /** `get_animation_catalog`: the three built-in packs, in this order. */
  function AnimationCatalog(): seq<AnimationPack> {
    [UniversalLibrary(), UniversalLibrary2(), Mannequin()]
  }

  /** A clip as the catalog writes it: a `.glb` file named after the clip, played in a loop or once. */
  predicate WellFormedClip(a: AnimationInfo) {
    a.file == a.name + ".glb" && (a.loopMode == "loop" || a.loopMode == "once") && a.duration > 0.0 && |a.tags| > 0
  }

  predicate WellFormedPack(p: AnimationPack) {
    |p.animations| > 0 && p.license == "CC0" && p.downloadUrl.Some?
    && forall k :: 0 <= k < |p.animations| ==> WellFormedClip(p.animations[k])
  }

  lemma UniversalLibraryWellFormed()
    ensures WellFormedPack(UniversalLibrary()) && |UniversalLibrary().animations| == 12
  {
    UniversalLibraryClipsLow();
    UniversalLibraryClipsHigh();
  }

  lemma UniversalLibraryClipsLow()
    ensures |UniversalLibraryClips()| == 12
    ensures forall k :: 0 <= k < 6 ==> WellFormedClip(UniversalLibraryClips()[k])
  {
    var xs := UniversalLibraryClips();
    assert WellFormedClip(xs[0]) && WellFormedClip(xs[1]) && WellFormedClip(xs[2]);
    assert WellFormedClip(xs[3]) && WellFormedClip(xs[4]) && WellFormedClip(xs[5]);
  }

  lemma UniversalLibraryClipsHigh()
    ensures |UniversalLibraryClips()| == 12
    ensures forall k :: 6 <= k < 12 ==> WellFormedClip(UniversalLibraryClips()[k])
  {
    var xs := UniversalLibraryClips();
    assert WellFormedClip(xs[6]) && WellFormedClip(xs[7]) && WellFormedClip(xs[8]);
    assert WellFormedClip(xs[9]) && WellFormedClip(xs[10]) && WellFormedClip(xs[11]);
  }

  lemma UniversalLibrary2WellFormed()
    ensures WellFormedPack(UniversalLibrary2()) && |UniversalLibrary2().animations| == 9
  {
    UniversalLibrary2ClipsLow();
    UniversalLibrary2ClipsHigh();
  }

  lemma UniversalLibrary2ClipsLow()
    ensures |UniversalLibrary2Clips()| == 9
    ensures forall k :: 0 <= k < 5 ==> WellFormedClip(UniversalLibrary2Clips()[k])
  {
    var xs := UniversalLibrary2Clips();
    assert WellFormedClip(xs[0]) && WellFormedClip(xs[1]) && WellFormedClip(xs[2]);
    assert WellFormedClip(xs[3]) && WellFormedClip(xs[4]);
  }

  lemma UniversalLibrary2ClipsHigh()
    ensures |UniversalLibrary2Clips()| == 9
    ensures forall k :: 5 <= k < 9 ==> WellFormedClip(UniversalLibrary2Clips()[k])
  {
    var xs := UniversalLibrary2Clips();
    assert WellFormedClip(xs[5]) && WellFormedClip(xs[6]);
    assert WellFormedClip(xs[7]) && WellFormedClip(xs[8]);
  }

  lemma MannequinWellFormed()
    ensures WellFormedPack(Mannequin()) && |Mannequin().animations| == 4
  {
    var xs := MannequinClips();
    assert WellFormedClip(xs[0]) && WellFormedClip(xs[1]);
    assert WellFormedClip(xs[2]) && WellFormedClip(xs[3]);
  }

  /** The catalog holds three well-formed packs whose ids are pairwise distinct. */
  lemma CatalogProperties()
    ensures |AnimationCatalog()| == 3
    ensures AnimationCatalog()[0].id == "quaternius-ual"
    ensures AnimationCatalog()[1].id == "quaternius-ual2"
    ensures AnimationCatalog()[2].id == "quaternius-mannequin"
    ensures forall i, j :: 0 <= i < j < |AnimationCatalog()| ==> AnimationCatalog()[i].id != AnimationCatalog()[j].id
    ensures forall i :: 0 <= i < |AnimationCatalog()| ==> WellFormedPack(AnimationCatalog()[i])
  {
    UniversalLibraryWellFormed();
    UniversalLibrary2WellFormed();
    MannequinWellFormed();
    var c := AnimationCatalog();
    assert |c[0].id| == 14 && |c[1].id| == 15 && |c[2].id| == 20;
  }

  // ---------------------------------------------------------------------------
  // Looking a pack up by id
  // ---------------------------------------------------------------------------

  /** The lookup of `setup_animation_library`: the first pack with the id, else an error naming it. */
  function FindPack(catalog: seq<AnimationPack>, id: string): (r: Result<AnimationPack, string>)
    ensures r.Ok? ==> r.value.id == id
    ensures r.Err? ==> r.error == "Pack not found: " + id
  {
    if catalog == [] then Err("Pack not found: " + id)
    else if catalog[0].id == id then Ok(catalog[0])
    else FindPack(catalog[1..], id)
  }

  /** The first pack carrying the id is the one found. */
  lemma {:induction false} FindPackFirst(catalog: seq<AnimationPack>, id: string, i: nat)
    requires i < |catalog| && catalog[i].id == id
    requires forall j :: 0 <= j < i ==> catalog[j].id != id
    ensures FindPack(catalog, id) == Ok(catalog[i])
    decreases i
  {
    if i > 0 {
      FindPackFirst(catalog[1..], id, i - 1);
    }
  }

  /** An id no pack carries is reported as not found. */
  lemma {:induction false} FindPackMissing(catalog: seq<AnimationPack>, id: string)
    requires forall j :: 0 <= j < |catalog| ==> catalog[j].id != id
    ensures FindPack(catalog, id) == Err("Pack not found: " + id)
    decreases |catalog|
  {
    if catalog != [] {
      assert forall j :: 0 <= j < |catalog| - 1 ==> catalog[1..][j] == catalog[j + 1];
      FindPackMissing(catalog[1..], id);
    }
  }

  /** Exactly the three catalog ids resolve, each to its own pack. */
  lemma CatalogLookup(id: string)
    ensures FindPack(AnimationCatalog(), id).Ok? <==>
      id == "quaternius-ual" || id == "quaternius-ual2" || id == "quaternius-mannequin"
    ensures id == "quaternius-ual" ==> FindPack(AnimationCatalog(), id) == Ok(UniversalLibrary())
    ensures id == "quaternius-ual2" ==> FindPack(AnimationCatalog(), id) == Ok(UniversalLibrary2())
    ensures id == "quaternius-mannequin" ==> FindPack(AnimationCatalog(), id) == Ok(Mannequin())
  {
    CatalogProperties();
    var c := AnimationCatalog();
    if id == "quaternius-ual" {
      FindPackFirst(c, id, 0);
    } else if id == "quaternius-ual2" {
      FindPackFirst(c, id, 1);
    } else if id == "quaternius-mannequin" {
      FindPackFirst(c, id, 2);
    } else {
      FindPackMissing(c, id);
    }
  }

  // ---------------------------------------------------------------------------
  // The AnimationTree scene text
  // ---------------------------------------------------------------------------

  /** The scene header: format line, the blend-tree script and the two sub-resources. */
  const HEADER: string :=
    "[gd_scene load_steps=" + "2 format=3]\n\n"
    + "[ext_resource type=\"Script\" " + "path=\"res://scripts/" + "locomotion_blend_tree." + "gd\" id=\"1\"]\n\n"
    + "[sub_resource type=\"AnimationNodeStateMachine\" " + "id=\"AnimationNodeStateMachine_" + "1\"]\n\n"
    + "[sub_resource type=\"AnimationNodeBlendTree\" " + "id=\"AnimationNodeBlendTree_" + "1\"]\n"
    + "graph_offset = " + "Vector2(-200, 0)\n"

  /** The AnimationTree node that closes every scene. */
  const FOOTER: string :=
    "\n[node name=\"AnimationTree\" " + "type=\"AnimationTree\"]\n"
    + "script = ExtResource(\"1\")\n"
    + "tree_root = SubResource(\"AnimationNodeStateMachine_" + "1\")\n"
    + "anim_player = NodePath(" + "\"../AnimationPlayer\")\n"

  const BLOCK_OPEN: string := "\n[sub_resource type=" + "\"AnimationNodeAnimation\" " + "id=\"anim_"
  const BLOCK_MID: string := "\"]\nanimation = &\""
  const BLOCK_CLOSE: string := "\"\n"

  /** The animation node for the clip at position `i`; the name goes in verbatim. */
  function AnimBlock(i: nat, name: string): string {
    BLOCK_OPEN + NatToDecimal(i) + BLOCK_MID + name + BLOCK_CLOSE
  }

  /** The blocks for all names, numbered from 0 in input order. */
  function Blocks(names: seq<string>): string {
    if names == [] then ""
    else Blocks(names[..|names| - 1]) + AnimBlock(|names| - 1, names[|names| - 1])
  }

  /** The blocks for all names between a header and a footer. */
  function Scene(header: string, names: seq<string>, footer: string): string {
    header + Blocks(names) + footer
  }

  /** The scene `generate_animation_tree_tscn` returns. */
  function TreeScene(names: seq<string>): string {
    Scene(HEADER, names, FOOTER)
  }

  lemma ConcatAssoc(a: string, b: string, c: string)
    ensures a + b + c == a + (b + c)
  {
  }

  /** `generate_animation_tree_tscn`: pushes the header, one block per name, then the footer. */
  method GenerateAnimationTreeTscn(animations: seq<string>) returns (tscn: string)
    ensures tscn == TreeScene(animations)
  {
    tscn := HEADER;
    for i := 0 to |animations|
      invariant tscn == HEADER + Blocks(animations[..i])
    {
      assert animations[..i + 1][..i] == animations[..i];
      var block := AnimBlock(i, animations[i]);
      assert Blocks(animations[..i + 1]) == Blocks(animations[..i]) + block;
      ConcatAssoc(HEADER, Blocks(animations[..i]), block);
      tscn := tscn + block;
    }
    assert animations[..|animations|] == animations;
    tscn := tscn + FOOTER;
  }

  /** The scene always opens with the header and closes with the footer; no names give nothing else. */
  lemma TreeSceneFrame(names: seq<string>)
    ensures StartsWith(TreeScene(names), HEADER)
    ensures EndsWith(TreeScene(names), FOOTER)
    ensures names == [] ==> TreeScene(names) == HEADER + FOOTER
  {
    var s := TreeScene(names);
    assert s[..|HEADER|] == HEADER;
    assert s[|s| - |FOOTER|..] == FOOTER;
  }

  /** The blocks of a prefix of the names are a prefix of the blocks. */
  lemma {:induction false} BlocksPrefix(names: seq<string>, i: nat)
    requires i <= |names|
    ensures Blocks(names[..i]) <= Blocks(names)
    decreases |names|
  {
    if i < |names| {
      var init := names[..|names| - 1];
      assert init[..i] == names[..i];
      BlocksPrefix(init, i);
    } else {
      assert names[..i] == names;
    }
  }

  /** Where the block for position `i` begins in a scene with this header. */
  function BlockOffset(header: string, names: seq<string>, i: nat): nat
    requires i <= |names|
  {
    |header| + |Blocks(names[..i])|
  }

  /** Block `i` lies in the blocks right after the blocks before it. */
  lemma BlockInBlocks(names: seq<string>, i: nat)
    requires i < |names|
    ensures OccursAt(Blocks(names), AnimBlock(i, names[i]), |Blocks(names[..i])|)
    ensures |Blocks(names[..i])| + |AnimBlock(i, names[i])| == |Blocks(names[..i + 1])|
  {
    var pre := names[..i + 1];
    assert pre[..i] == names[..i];
    var b := AnimBlock(i, names[i]);
    assert Blocks(pre) == Blocks(names[..i]) + b;
    BlocksPrefix(names, i + 1);
    var all := Blocks(names);
    assert all[..|Blocks(pre)|] == Blocks(pre);
    var lo := |Blocks(names[..i])|;
    assert all[lo..lo + |b|] == Blocks(pre)[lo..];
  }

  /**
   * Block `i` sits at `BlockOffset(header, names, i)` and ends exactly where
   * block `i + 1` (or the footer) begins: one block per name, in input order.
   * `TreeScene` is the scene with `HEADER` and `FOOTER`.
   */
  lemma BlockAt(header: string, footer: string, names: seq<string>, i: nat)
    requires i < |names|
    ensures OccursAt(Scene(header, names, footer), AnimBlock(i, names[i]), BlockOffset(header, names, i))
    ensures BlockOffset(header, names, i) + |AnimBlock(i, names[i])| == BlockOffset(header, names, i + 1)
  {
    BlockInBlocks(names, i);
    OccursInConcat(header, Blocks(names), footer, AnimBlock(i, names[i]), |Blocks(names[..i])|);
  }

  /** After the last block comes the footer and nothing else. */
  lemma FooterAt(header: string, footer: string, names: seq<string>)
    ensures OccursAt(Scene(header, names, footer), footer, BlockOffset(header, names, |names|))
    ensures BlockOffset(header, names, |names|) + |footer| == |Scene(header, names, footer)|
  {
    assert names[..|names|] == names;
    var s := Scene(header, names, footer);
    assert s[|s| - |footer|..] == footer;
  }

  /** Digits followed by a quote: the digits end where the quote begins. */
  lemma DigitsEnd(d: string, rest: string)
    requires AllDigits(d) && |rest| > 0 && rest[0] == '"'
    ensures forall k :: 0 <= k < |d| ==> IsDigit((d + rest)[k])
    ensures !IsDigit((d + rest)[|d|])
  {
  }

  /** A run of digits closed by a quote, then a tail: equal texts have equal digits and equal tails. */
  lemma QuotedDigitsInjective(di: string, ri: string, dj: string, rj: string)
    requires AllDigits(di) && AllDigits(dj)
    requires |ri| > 0 && ri[0] == '"' && |rj| > 0 && rj[0] == '"'
    requires di + ri == dj + rj
    ensures di == dj && ri == rj
  {
    DigitsEnd(di, ri);
    DigitsEnd(dj, rj);
    var t := di + ri;
    assert di == t[..|di|] && dj == (dj + rj)[..|dj|];
    assert ri == t[|di|..] && rj == (dj + rj)[|dj|..];
  }

  /** Two blocks are equal only for the same position and the same name: every id `anim_i` is its own. */
  lemma AnimBlockInjective(i: nat, a: string, j: nat, b: string)
    requires AnimBlock(i, a) == AnimBlock(j, b)
    ensures i == j && a == b
  {
    var di, dj := NatToDecimal(i), NatToDecimal(j);
    var ri, rj := BLOCK_MID + a + BLOCK_CLOSE, BLOCK_MID + b + BLOCK_CLOSE;
    ConcatAssoc(BLOCK_OPEN, di, ri);
    ConcatAssoc(BLOCK_OPEN, dj, rj);
    assert AnimBlock(i, a) == BLOCK_OPEN + (di + ri) by {
      ConcatAssoc(BLOCK_OPEN + di, BLOCK_MID, a);
      ConcatAssoc(BLOCK_OPEN + di, BLOCK_MID + a, BLOCK_CLOSE);
    }
    assert AnimBlock(j, b) == BLOCK_OPEN + (dj + rj) by {
      ConcatAssoc(BLOCK_OPEN + dj, BLOCK_MID, b);
      ConcatAssoc(BLOCK_OPEN + dj, BLOCK_MID + b, BLOCK_CLOSE);
    }
    assert di + ri == (BLOCK_OPEN + (di + ri))[|BLOCK_OPEN|..];
    assert dj + rj == (BLOCK_OPEN + (dj + rj))[|BLOCK_OPEN|..];
    QuotedDigitsInjective(di, ri, dj, rj);
    DecimalValue(i);
    DecimalValue(j);
    assert a == ri[|BLOCK_MID|..|ri| - |BLOCK_CLOSE|];
    assert b == rj[|BLOCK_MID|..|rj| - |BLOCK_CLOSE|];
  }

  // ---------------------------------------------------------------------------
  // setup_animation_library's scene
  // ---------------------------------------------------------------------------

  function ClipNames(clips: seq<AnimationInfo>): (r: seq<string>)
    ensures |r| == |clips| && forall k :: 0 <= k < |clips| ==> r[k] == clips[k].name
  {
    seq(|clips|, k requires 0 <= k < |clips| => clips[k].name)
  }

  /** The scene written for a pack id, or the lookup error. */
  function PackTreeScene(packId: string): (r: Result<string, string>)
    ensures r.Err? <==> FindPack(AnimationCatalog(), packId).Err?
  {
    match FindPack(AnimationCatalog(), packId)
    case Err(e) => Err(e)
    case Ok(pack) => Ok(TreeScene(ClipNames(pack.animations)))
  }

  /**
   * The scene written for any catalog pack holds that pack's clips in order:
   * clip i is the block `anim_i` naming it, at the offset of the blocks of
   * the clips before it.
   */
  lemma PackSceneHoldsClips(k: nat, i: nat)
    requires k < |AnimationCatalog()| && i < |AnimationCatalog()[k].animations|
    ensures var p := AnimationCatalog()[k];
      && PackTreeScene(p.id).Ok?
      && OccursAt(PackTreeScene(p.id).value, AnimBlock(i, p.animations[i].name),
                  BlockOffset(HEADER, ClipNames(p.animations), i))
  {
    var c := AnimationCatalog();
    CatalogProperties();
    var p := c[k];
    FindPackFirst(c, p.id, k);
    var names := ClipNames(p.animations);
    assert PackTreeScene(p.id) == Ok(Scene(HEADER, names, FOOTER));
    BlockAt(HEADER, FOOTER, names, i);
  }

  /** The mannequin scene holds its four clips as anim_0..anim_3, and an unknown id is reported. */
  lemma PackTreeSceneExamples(unknown: string)
    requires unknown != "quaternius-ual" && unknown != "quaternius-ual2" && unknown != "quaternius-mannequin"
    ensures PackTreeScene("quaternius-mannequin") == Ok(TreeScene(["Idle", "Walk", "Run", "Jump"]))
    ensures PackTreeScene(unknown) == Err("Pack not found: " + unknown)
  {
    CatalogLookup("quaternius-mannequin");
    CatalogLookup(unknown);
    var names := ClipNames(Mannequin().animations);
    assert names == ["Idle", "Walk", "Run", "Jump"];
  }
}
