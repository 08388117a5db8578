/** getGameMode and gameModeName: which vehicle the player is in, and its display name. */
module GameMode {
  import opened Wrappers

  /** The icon kind stored in the game manager. Other stands for every value the
      switch does not list (its `default:` label). */
  datatype IconType = Cube | Ship | Ball | Ufo | Wave | Robot | Spider | Swing | Jetpack | Other(code: int)

  datatype PlayerMode = Cube | Ship | Ball | UFO | Wave | Robot | Spider | Swing

  /** The seven vehicle flags of a player object. */
  datatype PlayerFlags = PlayerFlags(
    isShip: bool, isBall: bool, isBird: bool, isDart: bool,
    isRobot: bool, isSpider: bool, isSwing: bool)

  /** The mode named by the stored icon type, used when there is no player object. */
  function ModeOfIcon(icon: IconType): (m: PlayerMode)
    ensures m == PlayerMode.Cube <==> icon.Cube? || icon.Other?
    ensures m == PlayerMode.Ship <==> icon.Ship? || icon.Jetpack?
    ensures m == PlayerMode.Ball <==> icon.Ball?
    ensures m == PlayerMode.UFO <==> icon.Ufo?
    ensures m == PlayerMode.Wave <==> icon.Wave?
    ensures m == PlayerMode.Robot <==> icon.Robot?
    ensures m == PlayerMode.Spider <==> icon.Spider?
    ensures m == PlayerMode.Swing <==> icon.Swing?
  {
    match icon
    case Cube => PlayerMode.Cube
    case Other(_) => PlayerMode.Cube
    case Ship => PlayerMode.Ship
    case Jetpack => PlayerMode.Ship
    case Ball => PlayerMode.Ball
    case Ufo => PlayerMode.UFO
    case Wave => PlayerMode.Wave
    case Robot => PlayerMode.Robot
    case Spider => PlayerMode.Spider
    case Swing => PlayerMode.Swing
  }

  /** The mode of a player object: the first flag set, in the fixed order
      ship, ball, bird, dart, robot, spider, swing; Cube when none is set. */
  function ModeOfPlayer(p: PlayerFlags): (m: PlayerMode)
    ensures m == PlayerMode.Ship <==> p.isShip
    ensures m == PlayerMode.Ball <==> !p.isShip && p.isBall
    ensures m == PlayerMode.UFO <==> !p.isShip && !p.isBall && p.isBird
    ensures m == PlayerMode.Wave <==> !p.isShip && !p.isBall && !p.isBird && p.isDart
    ensures m == PlayerMode.Robot <==> !p.isShip && !p.isBall && !p.isBird && !p.isDart && p.isRobot
    ensures m == PlayerMode.Spider <==>
      !p.isShip && !p.isBall && !p.isBird && !p.isDart && !p.isRobot && p.isSpider
    ensures m == PlayerMode.Swing <==>
      !p.isShip && !p.isBall && !p.isBird && !p.isDart && !p.isRobot && !p.isSpider && p.isSwing
    ensures m == PlayerMode.Cube <==>
      !p.isShip && !p.isBall && !p.isBird && !p.isDart && !p.isRobot && !p.isSpider && !p.isSwing
  {
    if p.isShip then PlayerMode.Ship
    else if p.isBall then PlayerMode.Ball
    else if p.isBird then PlayerMode.UFO
    else if p.isDart then PlayerMode.Wave
    else if p.isRobot then PlayerMode.Robot
    else if p.isSpider then PlayerMode.Spider
    else if p.isSwing then PlayerMode.Swing
    else PlayerMode.Cube
  }

  /** getGameMode: a missing player falls back to the stored icon type; a present
      player decides alone, and the stored icon type is then not consulted. */
  function GetGameMode(player: Option<PlayerFlags>, storedIcon: IconType): (m: PlayerMode)
    ensures player.None? ==> m == ModeOfIcon(storedIcon)
    ensures player.Some? ==> m == ModeOfPlayer(player.value)
  {
    match player
    case None => ModeOfIcon(storedIcon)
    case Some(p) => ModeOfPlayer(p)
  }

  /** The flags in priority order, and the mode each one selects. */
  function FlagsInPriorityOrder(p: PlayerFlags): seq<bool> {
    [p.isShip, p.isBall, p.isBird, p.isDart, p.isRobot, p.isSpider, p.isSwing]
  }

  const PriorityModes: seq<PlayerMode> :=
    [PlayerMode.Ship, PlayerMode.Ball, PlayerMode.UFO, PlayerMode.Wave,
     PlayerMode.Robot, PlayerMode.Spider, PlayerMode.Swing]

  /** Reference definition: the mode paired with the first set flag, Cube if none. */
  function FirstSetFlag(flags: seq<bool>, modes: seq<PlayerMode>): PlayerMode
    requires |flags| == |modes|
  {
    if flags == [] then PlayerMode.Cube
    else if flags[0] then modes[0]
    else FirstSetFlag(flags[1..], modes[1..])
  }

  /** The if-chain over the player's flags agrees with the priority table. */
  lemma ModeOfPlayerIsFirstSetFlag(p: PlayerFlags)
    ensures GetGameMode(Some(p), IconType.Cube) == FirstSetFlag(FlagsInPriorityOrder(p), PriorityModes)
  {
    var f, ms := FlagsInPriorityOrder(p), PriorityModes;
    var f1, m1 := f[1..], ms[1..];
    var f2, m2 := f1[1..], m1[1..];
    var f3, m3 := f2[1..], m2[1..];
    var f4, m4 := f3[1..], m3[1..];
    var f5, m5 := f4[1..], m4[1..];
    var f6, m6 := f5[1..], m5[1..];
    assert f6[1..] == [];
    assert FirstSetFlag(f6, m6) == if p.isSwing then PlayerMode.Swing else PlayerMode.Cube;
    assert FirstSetFlag(f5, m5) == if p.isSpider then PlayerMode.Spider else FirstSetFlag(f6, m6);
    assert FirstSetFlag(f4, m4) == if p.isRobot then PlayerMode.Robot else FirstSetFlag(f5, m5);
    assert FirstSetFlag(f3, m3) == if p.isDart then PlayerMode.Wave else FirstSetFlag(f4, m4);
    assert FirstSetFlag(f2, m2) == if p.isBird then PlayerMode.UFO else FirstSetFlag(f3, m3);
    assert FirstSetFlag(f1, m1) == if p.isBall then PlayerMode.Ball else FirstSetFlag(f2, m2);
  }

  /** The player object that has exactly the flag belonging to a mode. */
  function FlagsFor(m: PlayerMode): PlayerFlags {
    PlayerFlags(m.Ship?, m.Ball?, m.UFO?, m.Wave?, m.Robot?, m.Spider?, m.Swing?)
  }

  /** The icon type that has the same name as a mode. */
  function IconFor(m: PlayerMode): IconType {
    match m
    case Cube => IconType.Cube
    case Ship => IconType.Ship
    case Ball => IconType.Ball
    case UFO => IconType.Ufo
    case Wave => IconType.Wave
    case Robot => IconType.Robot
    case Spider => IconType.Spider
    case Swing => IconType.Swing
  }

  /** Every mode is reached both ways: from the player with only its flag set,
      and, without a player, from the icon type of the same name. */
  lemma EveryModeReachable(m: PlayerMode, icon: IconType)
    ensures GetGameMode(Some(FlagsFor(m)), icon) == m
    ensures GetGameMode(None, IconFor(m)) == m
  {
  }

  /** gameModeName: the display name of a mode. */
  function GameModeName(mode: PlayerMode): (name: string)
    ensures name != "Unknown"
    ensures ModeNamed(name) == Some(mode)
  {
    match mode
    case Cube => "Cube"
    case Ship => "Ship"
    case Ball => "Ball"
    case UFO => "UFO"
    case Wave => "Wave"
    case Robot => "Robot"
    case Spider => "Spider"
    case Swing => "Swing"
  }

  /** Inverse of GameModeName: the mode carrying a display name, if any. */
  function ModeNamed(name: string): Option<PlayerMode> {
    if name == "Cube" then Some(PlayerMode.Cube)
    else if name == "Ship" then Some(PlayerMode.Ship)
    else if name == "Ball" then Some(PlayerMode.Ball)
    else if name == "UFO" then Some(PlayerMode.UFO)
    else if name == "Wave" then Some(PlayerMode.Wave)
    else if name == "Robot" then Some(PlayerMode.Robot)
    else if name == "Spider" then Some(PlayerMode.Spider)
    else if name == "Swing" then Some(PlayerMode.Swing)
    else None
  }

  /** The eight names are pairwise distinct. */
  lemma GameModeNamesDistinct(a: PlayerMode, b: PlayerMode)
    ensures GameModeName(a) == GameModeName(b) ==> a == b
  {
    assert ModeNamed(GameModeName(a)) == Some(a);
    assert ModeNamed(GameModeName(b)) == Some(b);
  }
}
