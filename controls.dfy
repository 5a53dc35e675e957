/**
 * Gamepad-to-game input translation: the state a gamepad model reports, the
 * control mappings of a project, and the mapper that turns one gamepad state
 * into the list of game actions sent to the running game.
 *
 * Stick axes, triggers, the deadzone and the sensitivity are reals; only
 * comparisons against the deadzone and the look products matter.
 */
module Controls {
  import opened Text

  datatype GamepadButtons = GamepadButtons(
    west: bool, south: bool, east: bool, north: bool,
    back: bool, start: bool, guide: bool,
    leftShoulder: bool, rightShoulder: bool, leftThumb: bool, rightThumb: bool,
    dpadUp: bool, dpadDown: bool, dpadLeft: bool, dpadRight: bool,
    leftTrigger: real, rightTrigger: real)

  /** Both sticks as (x, y) and the buttons. */
  datatype GamepadState = GamepadState(jLeft: (real, real), jRight: (real, real), buttons: GamepadButtons)

  /** The action bound to each direction or axis of a stick, if any. */
  datatype JoystickMapping = JoystickMapping(
    up: Option<string>, down: Option<string>, left: Option<string>, right: Option<string>,
    x: Option<string>, y: Option<string>)

  datatype ControlMappings = ControlMappings(
    joystickLeft: JoystickMapping, joystickRight: JoystickMapping,
    buttons: map<string, string>, deadzone: real, sensitivity: real)

  datatype JsonValue = JStr(s: string) | JNum(n: real) | JBool(b: bool)

  /** A call into the game: function name and JSON arguments. */
  datatype GameAction = GameAction(func: string, args: seq<JsonValue>)

  const NO_BUTTONS := GamepadButtons(false, false, false, false, false, false, false, false, false, false,
                                     false, false, false, false, false, 0.0, 0.0)

  const EMPTY_STICK := JoystickMapping(None, None, None, None, None, None)

  const DEFAULT_DEADZONE: real := 0.2
  const DEFAULT_SENSITIVITY: real := 1.0

  const DEFAULT_BUTTONS: map<string, string> :=
    map["SOUTH" := "jump", "WEST" := "attack", "EAST" := "interact", "RIGHT_SHOULDER" := "sprint"]

  /** `ControlMappings::default`: the left stick moves, the right stick looks, four face/shoulder buttons. */
  const DEFAULT_MAPPINGS := ControlMappings(
    JoystickMapping(Some("move_up"), Some("move_down"), Some("move_left"), Some("move_right"), None, None),
    JoystickMapping(None, None, None, None, Some("look_x"), Some("look_y")),
    DEFAULT_BUTTONS, DEFAULT_DEADZONE, DEFAULT_SENSITIVITY)

  function Abs(x: real): real {
    if x < 0.0 then -x else x
  }

  /** A look argument: 30 degrees per unit of stick deflection, times the sensitivity. */
  function LookDegrees(axis: real, sensitivity: real): real {
    axis * 30.0 * sensitivity
  }

  function Move(dir: string): GameAction {
    GameAction("move", [JStr(dir)])
  }

  const MOVE_STOP := Move("stop")
  const MOVE_UP := Move("up")
  const MOVE_DOWN := Move("down")
  const MOVE_LEFT := Move("left")
  const MOVE_RIGHT := Move("right")
  const JUMP := GameAction("jump", [])
  const ATTACK := GameAction("attack", [])
  const INTERACT := GameAction("interact", [])
  const SPRINT := GameAction("sprint", [JBool(true)])

  // ---------------------------------------------------------------------------
  // The actions for one gamepad state
  // ---------------------------------------------------------------------------

  predicate Centered(m: ControlMappings, s: GamepadState) {
    Abs(s.jLeft.0) <= m.deadzone && Abs(s.jLeft.1) <= m.deadzone
  }

  /** Up when the stick is past the deadzone upward (negative y), else down when past it downward. */
  function VerticalMove(m: ControlMappings, ly: real): seq<GameAction> {
    var dz := m.deadzone;
    if ly < -dz then (if m.joystickLeft.up.Some? then [MOVE_UP] else [])
    else if ly > dz then (if m.joystickLeft.down.Some? then [MOVE_DOWN] else [])
    else []
  }

  /** Left when the stick is past the deadzone leftward, else right when past it rightward. */
  function HorizontalMove(m: ControlMappings, lx: real): seq<GameAction> {
    var dz := m.deadzone;
    if lx < -dz then (if m.joystickLeft.left.Some? then [MOVE_LEFT] else [])
    else if lx > dz then (if m.joystickLeft.right.Some? then [MOVE_RIGHT] else [])
    else []
  }

  /** The left stick: one vertical and one horizontal move outside the deadzone, a stop inside it. */
  function StickActions(m: ControlMappings, s: GamepadState): seq<GameAction> {
    if !Centered(m, s) then VerticalMove(m, s.jLeft.1) + HorizontalMove(m, s.jLeft.0)
    else [MOVE_STOP]
  }

  /** The right stick: a look by 30 degrees per unit deflection, scaled by the sensitivity. */
  function LookActions(m: ControlMappings, s: GamepadState): seq<GameAction> {
    var rx, ry := s.jRight.0, s.jRight.1;
    if Abs(rx) > m.deadzone || Abs(ry) > m.deadzone then
      [GameAction("look", [JNum(LookDegrees(rx, m.sensitivity)), JNum(LookDegrees(ry, m.sensitivity))])]
    else []
  }

  /** The buttons with a fixed meaning, in a fixed order. */
  function ButtonActions(b: GamepadButtons): seq<GameAction> {
    (if b.south then [JUMP] else [])
    + (if b.west then [ATTACK] else [])
    + (if b.east then [INTERACT] else [])
    + (if b.rightShoulder then [SPRINT] else [])
  }

  /** The actions `map_to_actions` produces. */
  function ActionsFor(m: ControlMappings, s: GamepadState): seq<GameAction> {
    StickActions(m, s) + LookActions(m, s) + ButtonActions(s.buttons)
  }

  lemma AppendAssoc(a: seq<GameAction>, b: seq<GameAction>, c: seq<GameAction>)
    ensures a + b + c == a + (b + c)
  {
  }

  class ControlMapper {
    var mappings: ControlMappings
    var prevState: Option<GamepadState>

    constructor(mappings: ControlMappings)
      ensures this.mappings == mappings && prevState == None
    {
      this.mappings := mappings;
      prevState := None;
    }

    /** `map_to_actions`: builds the action list and remembers the state. */
    method MapToActions(state: GamepadState) returns (actions: seq<GameAction>)
      modifies this
      ensures actions == ActionsFor(mappings, state)
      ensures mappings == old(mappings) && prevState == Some(state)
    {
      var m := mappings;
      var dz := m.deadzone;
      actions := PushStickActions(m, state);
      ghost var front := actions;

      var rx, ry := state.jRight.0, state.jRight.1;
      if Abs(rx) > dz || Abs(ry) > dz {
        var sens := m.sensitivity;
        actions := actions + [GameAction("look", [JNum(LookDegrees(rx, sens)), JNum(LookDegrees(ry, sens))])];
      }
      assert actions == front + LookActions(m, state);

      actions := PushButtonActions(actions, state.buttons);
      prevState := Some(state);
    }
  }

  /** The left-stick half of `map_to_actions`. */
  method PushStickActions(m: ControlMappings, state: GamepadState) returns (actions: seq<GameAction>)
    ensures actions == StickActions(m, state)
  {
    actions := [];
    var dz := m.deadzone;
    var lx, ly := state.jLeft.0, state.jLeft.1;
    if Abs(lx) > dz || Abs(ly) > dz {
      ghost var before := actions;
      if ly < -dz {
        if m.joystickLeft.up.Some? {
          actions := actions + [MOVE_UP];
        }
      } else if ly > dz {
        if m.joystickLeft.down.Some? {
          actions := actions + [MOVE_DOWN];
        }
      }
      assert actions == before + VerticalMove(m, ly);
      before := actions;
      if lx < -dz {
        if m.joystickLeft.left.Some? {
          actions := actions + [MOVE_LEFT];
        }
      } else if lx > dz {
        if m.joystickLeft.right.Some? {
          actions := actions + [MOVE_RIGHT];
        }
      }
      assert actions == before + HorizontalMove(m, lx);
    } else {
      actions := actions + [MOVE_STOP];
    }
  }

  /** The fixed-button half of `map_to_actions`: appends the pressed buttons' actions in order. */
  method PushButtonActions(front: seq<GameAction>, b: GamepadButtons) returns (actions: seq<GameAction>)
    ensures actions == front + ButtonActions(b)
  {
    actions := front;
    ghost var pressed: seq<GameAction> := [];
    if b.south {
      AppendAssoc(front, pressed, [JUMP]);
      actions := actions + [JUMP];
      pressed := pressed + [JUMP];
    }
    assert actions == front + pressed;
    assert pressed == (if b.south then [JUMP] else []);
    ghost var done := pressed;
    if b.west {
      AppendAssoc(front, pressed, [ATTACK]);
      actions := actions + [ATTACK];
      pressed := pressed + [ATTACK];
    }
    assert actions == front + pressed;
    assert pressed == done + (if b.west then [ATTACK] else []);
    done := pressed;
    if b.east {
      AppendAssoc(front, pressed, [INTERACT]);
      actions := actions + [INTERACT];
      pressed := pressed + [INTERACT];
    }
    assert actions == front + pressed;
    assert pressed == done + (if b.east then [INTERACT] else []);
    done := pressed;
    if b.rightShoulder {
      AppendAssoc(front, pressed, [SPRINT]);
      actions := actions + [SPRINT];
      pressed := pressed + [SPRINT];
    }
    assert actions == front + pressed;
    assert pressed == done + (if b.rightShoulder then [SPRINT] else []);
    assert pressed == ButtonActions(b);
  }

  // ---------------------------------------------------------------------------
  // What the mapper promises
  // ---------------------------------------------------------------------------

  lemma StickActionsShape(m: ControlMappings, s: GamepadState)
    ensures |StickActions(m, s)| <= 2
    ensures forall a :: a in StickActions(m, s) ==> a.func == "move"
    ensures forall k :: 0 <= k < |LookActions(m, s)| ==> LookActions(m, s)[k].func == "look"
    ensures forall a :: a in ButtonActions(s.buttons) ==> a.func in {"jump", "attack", "interact", "sprint"}
  {
  }

  /**
   * Inside the deadzone on both left axes the one left-stick action is
   * `move "stop"`, and it comes first; outside it no stop is sent.
   */
  lemma StopIffCentered(m: ControlMappings, s: GamepadState)
    ensures MOVE_STOP in ActionsFor(m, s) <==> Centered(m, s)
    ensures Centered(m, s) ==> ActionsFor(m, s)[0] == MOVE_STOP
  {
    var rest := LookActions(m, s) + ButtonActions(s.buttons);
    NoMoveAfterStick(m, s);
    StopInStick(m, s);
    assert ActionsFor(m, s) == StickActions(m, s) + rest;
  }

  /** The look and button actions are never moves. */
  lemma NoMoveAfterStick(m: ControlMappings, s: GamepadState)
    ensures forall x :: x in LookActions(m, s) + ButtonActions(s.buttons) ==> x.func != "move"
  {
    StickActionsShape(m, s);
  }

  lemma StopInStick(m: ControlMappings, s: GamepadState)
    ensures MOVE_STOP in StickActions(m, s) <==> Centered(m, s)
    ensures Centered(m, s) ==> StickActions(m, s) == [MOVE_STOP]
  {
    if !Centered(m, s) {
      var v, h := VerticalMove(m, s.jLeft.1), HorizontalMove(m, s.jLeft.0);
      assert MOVE_STOP != MOVE_UP && MOVE_STOP != MOVE_DOWN && MOVE_STOP != MOVE_LEFT && MOVE_STOP != MOVE_RIGHT;
      assert MOVE_STOP !in v && MOVE_STOP !in h;
    }
  }

  /**
   * Outside the deadzone each direction is sent exactly when the stick is
   * past the deadzone that way and the direction has a binding; up wins over
   * down and left over right, so at most one of each pair is sent.
   */
  lemma MovesAreStickActions(m: ControlMappings, s: GamepadState, d: string)
    ensures Move(d) in ActionsFor(m, s) <==> Move(d) in StickActions(m, s)
  {
    StickActionsShape(m, s);
    var rest := LookActions(m, s) + ButtonActions(s.buttons);
    assert ActionsFor(m, s) == StickActions(m, s) + rest;
    assert Move(d) !in rest;
  }

  lemma VerticalDirections(m: ControlMappings, s: GamepadState)
    ensures var a, dz, ly := ActionsFor(m, s), m.deadzone, s.jLeft.1;
      && (MOVE_UP in a <==> !Centered(m, s) && ly < -dz && m.joystickLeft.up.Some?)
      && (MOVE_DOWN in a <==> !Centered(m, s) && !(ly < -dz) && ly > dz && m.joystickLeft.down.Some?)
  {
    MovesAreStickActions(m, s, "up");
    MovesAreStickActions(m, s, "down");
    VerticalInStick(m, s);
  }

  lemma VerticalInStick(m: ControlMappings, s: GamepadState)
    ensures var a, dz, ly := StickActions(m, s), m.deadzone, s.jLeft.1;
      && (MOVE_UP in a <==> !Centered(m, s) && ly < -dz && m.joystickLeft.up.Some?)
      && (MOVE_DOWN in a <==> !Centered(m, s) && !(ly < -dz) && ly > dz && m.joystickLeft.down.Some?)
  {
    assert MOVE_UP != MOVE_LEFT && MOVE_UP != MOVE_RIGHT && MOVE_UP != MOVE_STOP;
    assert MOVE_DOWN != MOVE_LEFT && MOVE_DOWN != MOVE_RIGHT && MOVE_DOWN != MOVE_STOP;
    var h := HorizontalMove(m, s.jLeft.0);
    assert MOVE_UP !in h && MOVE_DOWN !in h;
  }

  lemma HorizontalDirections(m: ControlMappings, s: GamepadState)
    ensures var a, dz, lx := ActionsFor(m, s), m.deadzone, s.jLeft.0;
      && (MOVE_LEFT in a <==> !Centered(m, s) && lx < -dz && m.joystickLeft.left.Some?)
      && (MOVE_RIGHT in a <==> !Centered(m, s) && !(lx < -dz) && lx > dz && m.joystickLeft.right.Some?)
  {
    MovesAreStickActions(m, s, "left");
    MovesAreStickActions(m, s, "right");
    HorizontalInStick(m, s);
  }

  lemma HorizontalInStick(m: ControlMappings, s: GamepadState)
    ensures var a, dz, lx := StickActions(m, s), m.deadzone, s.jLeft.0;
      && (MOVE_LEFT in a <==> !Centered(m, s) && lx < -dz && m.joystickLeft.left.Some?)
      && (MOVE_RIGHT in a <==> !Centered(m, s) && !(lx < -dz) && lx > dz && m.joystickLeft.right.Some?)
  {
    assert MOVE_LEFT != MOVE_UP && MOVE_LEFT != MOVE_DOWN && MOVE_LEFT != MOVE_STOP;
    assert MOVE_RIGHT != MOVE_UP && MOVE_RIGHT != MOVE_DOWN && MOVE_RIGHT != MOVE_STOP;
    var v := VerticalMove(m, s.jLeft.1);
    assert MOVE_LEFT !in v && MOVE_RIGHT !in v;
  }

  lemma MoveDirections(m: ControlMappings, s: GamepadState)
    ensures var a, dz, lx, ly := ActionsFor(m, s), m.deadzone, s.jLeft.0, s.jLeft.1;
      && (MOVE_UP in a <==> !Centered(m, s) && ly < -dz && m.joystickLeft.up.Some?)
      && (MOVE_DOWN in a <==> !Centered(m, s) && !(ly < -dz) && ly > dz && m.joystickLeft.down.Some?)
      && (MOVE_LEFT in a <==> !Centered(m, s) && lx < -dz && m.joystickLeft.left.Some?)
      && (MOVE_RIGHT in a <==> !Centered(m, s) && !(lx < -dz) && lx > dz && m.joystickLeft.right.Some?)
      && !(MOVE_UP in a && MOVE_DOWN in a)
      && !(MOVE_LEFT in a && MOVE_RIGHT in a)
  {
    VerticalDirections(m, s);
    HorizontalDirections(m, s);
  }

  /** Vertical before horizontal: a vertical move, when sent, is the first action. */
  lemma VerticalFirst(m: ControlMappings, s: GamepadState)
    ensures var a := ActionsFor(m, s);
      (MOVE_UP in a || MOVE_DOWN in a) ==> a[0] == MOVE_UP || a[0] == MOVE_DOWN
  {
    MoveDirections(m, s);
  }

  /**
   * A look with exactly two arguments, the scaled axes, is sent exactly when
   * either right axis is past the deadzone.
   */
  lemma LookIff(m: ControlMappings, s: GamepadState)
    ensures var a, rx, ry := ActionsFor(m, s), s.jRight.0, s.jRight.1;
      && ((exists k :: 0 <= k < |a| && a[k].func == "look") <==> Abs(rx) > m.deadzone || Abs(ry) > m.deadzone)
      && forall k :: 0 <= k < |a| && a[k].func == "look" ==>
           a[k].args == [JNum(LookDegrees(rx, m.sensitivity)), JNum(LookDegrees(ry, m.sensitivity))]
  {
    var st, l, b := StickActions(m, s), LookActions(m, s), ButtonActions(s.buttons);
    StickActionsShape(m, s);
    assert forall x :: x in st ==> x.func != "look";
    assert forall x :: x in b ==> x.func != "look";
    LooksInMiddle(st, l, b);
    assert ActionsFor(m, s) == st + l + b;
  }

  /** Between action lists without looks, every look of the whole comes from the middle list. */
  lemma LooksInMiddle(f: seq<GameAction>, l: seq<GameAction>, b: seq<GameAction>)
    requires forall x :: x in f ==> x.func != "look"
    requires forall x :: x in b ==> x.func != "look"
    ensures forall k :: 0 <= k < |f + l + b| && (f + l + b)[k].func == "look" ==>
      |f| <= k < |f| + |l| && (f + l + b)[k] == l[k - |f|]
    ensures |l| > 0 ==> (f + l + b)[|f|] == l[0]
  {
  }

  function Rank(func: string): nat {
    if func == "jump" then 0 else if func == "attack" then 1 else if func == "interact" then 2 else 3
  }

  /** Button actions appear in the order jump, attack, interact, sprint. */
  lemma ButtonActionsRanked(bs: GamepadButtons)
    ensures var b := ButtonActions(bs);
      forall i, j :: 0 <= i < j < |b| ==> Rank(b[i].func) < Rank(b[j].func)
  {
  }

  /** The button actions come last, each exactly when its button is pressed. */
  lemma ButtonActionsLast(m: ControlMappings, s: GamepadState)
    ensures var a, b := ActionsFor(m, s), ButtonActions(s.buttons);
      && a[|a| - |b|..] == b
      && (JUMP in a <==> s.buttons.south)
      && (ATTACK in a <==> s.buttons.west)
      && (INTERACT in a <==> s.buttons.east)
      && (SPRINT in a <==> s.buttons.rightShoulder)
  {
    var front := StickActions(m, s) + LookActions(m, s);
    NoButtonActionInFront(m, s);
    ButtonMembership(s.buttons);
    assert ActionsFor(m, s) == front + ButtonActions(s.buttons);
  }

  /** The stick and look actions hold no button action. */
  lemma NoButtonActionInFront(m: ControlMappings, s: GamepadState)
    ensures var front := StickActions(m, s) + LookActions(m, s);
      JUMP !in front && ATTACK !in front && INTERACT !in front && SPRINT !in front
  {
    StickActionsShape(m, s);
    var front := StickActions(m, s) + LookActions(m, s);
    assert forall x :: x in front ==> x.func == "move" || x.func == "look";
  }

  /** Each button action is in the list exactly when its button is pressed. */
  lemma ButtonMembership(bs: GamepadButtons)
    ensures var b := ButtonActions(bs);
      && (JUMP in b <==> bs.south) && (ATTACK in b <==> bs.west)
      && (INTERACT in b <==> bs.east) && (SPRINT in b <==> bs.rightShoulder)
  {
    assert JUMP != ATTACK && JUMP != INTERACT && JUMP != SPRINT;
    assert ATTACK != INTERACT && ATTACK != SPRINT && INTERACT != SPRINT;
  }

  /**
   * Only the south, west, east and right-shoulder buttons matter, and the
   * button table of the mappings is never consulted.
   */
  lemma OnlyFourButtonsMatter(m: ControlMappings, s: GamepadState, b: GamepadButtons, table: map<string, string>)
    requires b.south == s.buttons.south && b.west == s.buttons.west
    requires b.east == s.buttons.east && b.rightShoulder == s.buttons.rightShoulder
    ensures ActionsFor(m.(buttons := table), s.(buttons := b)) == ActionsFor(m, s)
  {
    var m', s' := m.(buttons := table), s.(buttons := b);
    assert StickActions(m', s') == StickActions(m, s);
    assert LookActions(m', s') == LookActions(m, s);
    assert ButtonActions(b) == ButtonActions(s.buttons);
  }

  /** With the defaults, pushing the left stick up (0, -0.8) sends exactly one move, up. */
  lemma DefaultStickUp()
    ensures ActionsFor(DEFAULT_MAPPINGS, GamepadState((0.0, -0.8), (0.0, 0.0), NO_BUTTONS)) == [MOVE_UP]
    ensures "SOUTH" in DEFAULT_MAPPINGS.buttons && DEFAULT_MAPPINGS.deadzone == 0.2
  {
  }

  // ---------------------------------------------------------------------------
  // Raw gamepad-model output
  // ---------------------------------------------------------------------------

  datatype Button = West | South | Back | DpadDown | DpadLeft | DpadRight | DpadUp | Guide
                  | LeftShoulder | LeftThumb | RightThumb | RightShoulder | Start | East | North

  /** The position of each button in the raw output. */
  function ButtonIndex(b: Button): nat {
    match b
    case West => 0
    case South => 1
    case Back => 2
    case DpadDown => 3
    case DpadLeft => 4
    case DpadRight => 5
    case DpadUp => 6
    case Guide => 7
    case LeftShoulder => 10
    case LeftThumb => 14
    case RightThumb => 15
    case RightShoulder => 16
    case Start => 18
    case East => 19
    case North => 20
  }

  function IsPressed(bs: GamepadButtons, b: Button): bool {
    match b
    case West => bs.west
    case South => bs.south
    case Back => bs.back
    case DpadDown => bs.dpadDown
    case DpadLeft => bs.dpadLeft
    case DpadRight => bs.dpadRight
    case DpadUp => bs.dpadUp
    case Guide => bs.guide
    case LeftShoulder => bs.leftShoulder
    case LeftThumb => bs.leftThumb
    case RightThumb => bs.rightThumb
    case RightShoulder => bs.rightShoulder
    case Start => bs.start
    case East => bs.east
    case North => bs.north
  }

  const BUTTON_THRESHOLD: real := 0.5

  /** The value at an index, or `default` past the end. */
  function At(v: seq<real>, i: nat, default: real): real {
    if i < |v| then v[i] else default
  }

  function Above(v: seq<real>, i: nat): bool {
    i < |v| && v[i] > BUTTON_THRESHOLD
  }

  /** `parse_nitrogen_output`: axes and triggers copied, buttons above one half pressed. */
  function ParseNitrogenOutput(jLeft: seq<real>, jRight: seq<real>, buttons: seq<real>): GamepadState {
    GamepadState(
      (At(jLeft, 0, 0.0), At(jLeft, 1, 0.0)),
      (At(jRight, 0, 0.0), At(jRight, 1, 0.0)),
      GamepadButtons(
        west := Above(buttons, 0), south := Above(buttons, 1), back := Above(buttons, 2),
        dpadDown := Above(buttons, 3), dpadLeft := Above(buttons, 4), dpadRight := Above(buttons, 5),
        dpadUp := Above(buttons, 6), guide := Above(buttons, 7), leftShoulder := Above(buttons, 10),
        leftTrigger := At(buttons, 11, 0.0), rightShoulder := Above(buttons, 16),
        rightTrigger := At(buttons, 17, 0.0), start := Above(buttons, 18), east := Above(buttons, 19),
        north := Above(buttons, 20), leftThumb := Above(buttons, 14), rightThumb := Above(buttons, 15)))
  }

  /**
   * Each button is pressed exactly when its index is present with a value
   * above 0.5; no two buttons share an index, and the trigger indices 11 and
   * 17 belong to no button; triggers and axes are copied, 0.0 when missing.
   */
  lemma ParseNitrogenOutputTable(jLeft: seq<real>, jRight: seq<real>, buttons: seq<real>, b: Button, c: Button)
    ensures var st := ParseNitrogenOutput(jLeft, jRight, buttons);
      && (IsPressed(st.buttons, b) <==> ButtonIndex(b) < |buttons| && buttons[ButtonIndex(b)] > 0.5)
      && (ButtonIndex(b) == ButtonIndex(c) ==> b == c)
      && ButtonIndex(b) != 11 && ButtonIndex(b) != 17
      && st.buttons.leftTrigger == (if 11 < |buttons| then buttons[11] else 0.0)
      && st.buttons.rightTrigger == (if 17 < |buttons| then buttons[17] else 0.0)
      && st.jLeft.0 == (if |jLeft| > 0 then jLeft[0] else 0.0)
      && st.jLeft.1 == (if |jLeft| > 1 then jLeft[1] else 0.0)
      && st.jRight.0 == (if |jRight| > 0 then jRight[0] else 0.0)
      && st.jRight.1 == (if |jRight| > 1 then jRight[1] else 0.0)
  {
  }

  /** An empty report is a centered pad with nothing pressed: the mapper sends only the stop. */
  lemma EmptyReportStops(m: ControlMappings)
    requires m.deadzone >= 0.0
    ensures ParseNitrogenOutput([], [], []) == GamepadState((0.0, 0.0), (0.0, 0.0), NO_BUTTONS)
    ensures ActionsFor(m, ParseNitrogenOutput([], [], [])) == [MOVE_STOP]
  {
  }

  // ---------------------------------------------------------------------------
  // Mappings from a template's control list
  // ---------------------------------------------------------------------------

  /** The button slot a template control name goes to, by the first keyword its lower-case form contains. */
  function Classify(name: string): Option<string> {
    var lower := ToLower(name);
    if Contains(lower, "jump") then Some("SOUTH")
    else if Contains(lower, "attack") || Contains(lower, "fire") then Some("WEST")
    else if Contains(lower, "interact") || Contains(lower, "use") then Some("EAST")
    else if Contains(lower, "sprint") || Contains(lower, "run") then Some("RIGHT_SHOULDER")
    else if Contains(lower, "crouch") || Contains(lower, "duck") then Some("LEFT_SHOULDER")
    else None
  }

  /** The button table after binding one name: its slot, if any, now holds it. */
  function Bind(table: map<string, string>, name: string): map<string, string> {
    BindBy(Classify, table, name)
  }

  /** The button table after binding each name in turn. */
  function BindAll(table: map<string, string>, names: seq<string>): map<string, string> {
    BindAllBy(Classify, table, names)
  }

  // Binding with the classification as a parameter, so the proofs below do
  // not depend on how a name is classified.

  function BindBy(classify: string -> Option<string>, table: map<string, string>, name: string): map<string, string> {
    var c := classify(name);
    if c.Some? then table[c.value := name] else table
  }

  function BindAllBy(classify: string -> Option<string>, table: map<string, string>, names: seq<string>)
    : map<string, string>
    decreases |names|
  {
    if names == [] then table else BindAllBy(classify, BindBy(classify, table, names[0]), names[1..])
  }

  /**
   * `from_template_controls`: the default mappings with each template control
   * name (in the order the template's object yields them; None when the
   * controls are not an object) bound to the slot its name suggests.
   */
  method FromTemplateControls(controls: Option<seq<string>>) returns (mappings: ControlMappings)
    ensures mappings == DEFAULT_MAPPINGS.(buttons := BindAll(DEFAULT_BUTTONS, controls.GetOr([])))
  {
    mappings := DEFAULT_MAPPINGS;
    if controls.Some? {
      var names := controls.value;
      for i := 0 to |names|
        invariant mappings == DEFAULT_MAPPINGS.(buttons := mappings.buttons)
        invariant BindAll(mappings.buttons, names[i..]) == BindAll(DEFAULT_BUTTONS, names)
      {
        assert names[i..][1..] == names[i + 1..];
        var lower := ToLower(names[i]);
        if Contains(lower, "jump") {
          mappings := mappings.(buttons := mappings.buttons["SOUTH" := names[i]]);
        } else if Contains(lower, "attack") || Contains(lower, "fire") {
          mappings := mappings.(buttons := mappings.buttons["WEST" := names[i]]);
        } else if Contains(lower, "interact") || Contains(lower, "use") {
          mappings := mappings.(buttons := mappings.buttons["EAST" := names[i]]);
        } else if Contains(lower, "sprint") || Contains(lower, "run") {
          mappings := mappings.(buttons := mappings.buttons["RIGHT_SHOULDER" := names[i]]);
        } else if Contains(lower, "crouch") || Contains(lower, "duck") {
          mappings := mappings.(buttons := mappings.buttons["LEFT_SHOULDER" := names[i]]);
        }
      }
    }
  }

  /**
   * Each slot ends up holding the last name classified into it, or keeps
   * what it had when no name goes there; no other slot is added.
   */
  lemma BindAllLastWins(table: map<string, string>, names: seq<string>, slot: string)
    ensures slot in BindAll(table, names) <==>
      slot in table || exists i :: 0 <= i < |names| && Classify(names[i]) == Some(slot)
    ensures (exists i :: 0 <= i < |names| && Classify(names[i]) == Some(slot)) ==>
      exists i :: 0 <= i < |names| && Classify(names[i]) == Some(slot)
        && BindAll(table, names)[slot] == names[i]
        && forall j :: i < j < |names| ==> Classify(names[j]) != Some(slot)
    ensures (forall i :: 0 <= i < |names| ==> Classify(names[i]) != Some(slot)) && slot in table ==>
      BindAll(table, names)[slot] == table[slot]
  {
    BindAllDomain(Classify, table, names, slot);
    if exists i :: 0 <= i < |names| && Classify(names[i]) == Some(slot) {
      var i :| 0 <= i < |names| && Classify(names[i]) == Some(slot);
      while exists j :: i < j < |names| && Classify(names[j]) == Some(slot)
        invariant 0 <= i < |names| && Classify(names[i]) == Some(slot)
        decreases |names| - i
      {
        var j :| i < j < |names| && Classify(names[j]) == Some(slot);
        i := j;
      }
      BindAllLastAt(Classify, table, names, slot, i);
    } else {
      BindAllUntouched(Classify, table, names, slot);
    }
  }

  lemma {:induction false} BindAllDomain(c: string -> Option<string>, table: map<string, string>,
                                         names: seq<string>, slot: string)
    ensures slot in BindAllBy(c, table, names) <==>
      slot in table || exists i :: 0 <= i < |names| && c(names[i]) == Some(slot)
    decreases |names|
  {
    if names != [] {
      var rest := names[1..];
      BindAllDomain(c, BindBy(c, table, names[0]), rest, slot);
      assert forall i :: 0 < i < |names| ==> names[i] == rest[i - 1];
      if exists i :: 0 <= i < |names| && c(names[i]) == Some(slot) {
        var i :| 0 <= i < |names| && c(names[i]) == Some(slot);
        if i > 0 {
          assert c(rest[i - 1]) == Some(slot);
        }
      }
    }
  }

  lemma {:induction false} BindAllUntouched(c: string -> Option<string>, table: map<string, string>,
                                            names: seq<string>, slot: string)
    requires forall i :: 0 <= i < |names| ==> c(names[i]) != Some(slot)
    ensures slot in BindAllBy(c, table, names) <==> slot in table
    ensures slot in table ==> BindAllBy(c, table, names)[slot] == table[slot]
    decreases |names|
  {
    if names != [] {
      var rest := names[1..];
      assert forall i :: 0 <= i < |rest| ==> rest[i] == names[i + 1];
      BindAllUntouched(c, BindBy(c, table, names[0]), rest, slot);
    }
  }

  /** The slot holds the name at `i` when no later name is classified into it. */
  lemma {:induction false} BindAllLastAt(c: string -> Option<string>, table: map<string, string>,
                                         names: seq<string>, slot: string, i: nat)
    requires i < |names| && c(names[i]) == Some(slot)
    requires forall j :: i < j < |names| ==> c(names[j]) != Some(slot)
    ensures slot in BindAllBy(c, table, names) && BindAllBy(c, table, names)[slot] == names[i]
    decreases |names|
  {
    var t', rest := BindBy(c, table, names[0]), names[1..];
    if i == 0 {
      assert forall j :: 0 <= j < |rest| ==> rest[j] == names[j + 1];
      BindAllUntouched(c, t', rest, slot);
    } else {
      assert rest[i - 1] == names[i];
      assert forall j :: i - 1 < j < |rest| ==> rest[j] == names[j + 1];
      BindAllLastAt(c, t', rest, slot, i - 1);
    }
  }

  /**
   * Slots are searched in priority order jump > attack/fire > interact/use >
   * sprint/run > crouch/duck: a name goes to a slot exactly when its
   * lower-case form holds one of the slot's keywords and none of a higher
   * slot's; with none of the ten keywords it goes nowhere.
   */
  lemma ClassifyPriority(name: string)
    ensures var l := ToLower(name);
      && (Classify(name) == Some("SOUTH") <==> Contains(l, "jump"))
      && (Classify(name) == Some("WEST") <==>
            !Contains(l, "jump") && (Contains(l, "attack") || Contains(l, "fire")))
      && (Classify(name) == Some("EAST") <==>
            !Contains(l, "jump") && !Contains(l, "attack") && !Contains(l, "fire")
            && (Contains(l, "interact") || Contains(l, "use")))
      && (Classify(name) == Some("RIGHT_SHOULDER") <==>
            !Contains(l, "jump") && !Contains(l, "attack") && !Contains(l, "fire")
            && !Contains(l, "interact") && !Contains(l, "use")
            && (Contains(l, "sprint") || Contains(l, "run")))
      && (Classify(name) == Some("LEFT_SHOULDER") <==>
            !Contains(l, "jump") && !Contains(l, "attack") && !Contains(l, "fire")
            && !Contains(l, "interact") && !Contains(l, "use")
            && !Contains(l, "sprint") && !Contains(l, "run")
            && (Contains(l, "crouch") || Contains(l, "duck")))
      && (Classify(name) == None <==>
            !Contains(l, "jump") && !Contains(l, "attack") && !Contains(l, "fire")
            && !Contains(l, "interact") && !Contains(l, "use")
            && !Contains(l, "sprint") && !Contains(l, "run")
            && !Contains(l, "crouch") && !Contains(l, "duck"))
    ensures Contains(ToLower(name), "jump") ==> Classify(name) == Some("SOUTH")
    ensures Classify(name).Some? ==>
      Classify(name).value in {"SOUTH", "WEST", "EAST", "RIGHT_SHOULDER", "LEFT_SHOULDER"}
    ensures Classify(name) == Some("LEFT_SHOULDER") ==>
      !Contains(ToLower(name), "jump") && !Contains(ToLower(name), "run") && !Contains(ToLower(name), "use")
  {
  }
}
