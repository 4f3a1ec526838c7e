/** The direction translator: four active-low direction pins become a signed
    vector, and the vector becomes one of nine hat positions. */
module Direction {
  import opened Config
  import opened Sink

  /** A signed two-axis vector; y < 0 means up. */
  datatype Vec = Vec(x: int, y: int)

  /** Both components lie in {-1, 0, 1}. */
  predicate InRange(v: Vec) {
    -1 <= v.x <= 1 && -1 <= v.y <= 1
  }

  /** `direction()`: 1 when the pin reads LOW (pressed), otherwise 0. */
  function Pressed(l: Level): int {
    if l == Low then 1 else 0
  }

  /** One axis: the positive pin's contribution minus the negative pin's.
      Opposing presses cancel, a single press gives its sign. */
  function Axis(pos: Level, neg: Level): (a: int)
    ensures -1 <= a <= 1
    ensures a == 0 <==> pos == neg
    ensures a == 1 <==> pos == Low && neg == High
    ensures a == -1 <==> pos == High && neg == Low
  {
    Pressed(pos) - Pressed(neg)
  }

  /** `x = direction(RIGHT) - direction(LEFT)`, `y = direction(DOWN) - direction(UP)`. */
  function Stick(levels: seq<Level>): (v: Vec)
    requires |levels| == DIR_COUNT
    ensures InRange(v)
    ensures v.x == 0 <==> levels[DIR_LEFT] == levels[DIR_RIGHT]
    ensures v.y == 0 <==> levels[DIR_UP] == levels[DIR_DOWN]
    ensures v.x < 0 <==> levels[DIR_LEFT] == Low && levels[DIR_RIGHT] == High
    ensures v.y < 0 <==> levels[DIR_UP] == Low && levels[DIR_DOWN] == High
  {
    Vec(Axis(levels[DIR_RIGHT], levels[DIR_LEFT]), Axis(levels[DIR_DOWN], levels[DIR_UP]))
  }

  function Sign(n: int): int {
    if n < 0 then -1 else if n == 0 then 0 else 1
  }

  /** The unit vector each hat position stands for: the reference table
      that the hat selection is checked against. */
  function HatVector(h: Hat): (v: Vec)
    ensures InRange(v)
  {
    match h
    case Centered => Vec(0, 0)
    case Up => Vec(0, -1)
    case UpRight => Vec(1, -1)
    case Right => Vec(1, 0)
    case DownRight => Vec(1, 1)
    case Down => Vec(0, 1)
    case DownLeft => Vec(-1, 1)
    case Left => Vec(-1, 0)
    case UpLeft => Vec(-1, -1)
  }

  /** The hat selection: a branch on the sign of x, then on the sign of y.
      It picks the hat whose vector has the signs of (x, y). */
  function HatOf(x: int, y: int): (h: Hat)
    ensures HatVector(h) == Vec(Sign(x), Sign(y))
  {
    if x < 0 then
      (if y == 0 then Left else if y > 0 then DownLeft else UpLeft)
    else if x == 0 then
      (if y == 0 then Centered else if y > 0 then Down else Up)
    else
      (if y == 0 then Right else if y > 0 then DownRight else UpRight)
  }

  /** Every hat position is selected by its own vector, so the selection
      reaches all nine positions. */
  lemma HatOfVector(h: Hat)
    ensures HatOf(HatVector(h).x, HatVector(h).y) == h
  {
    match h
    case Centered =>
    case Up =>
    case UpRight =>
    case Right =>
    case DownRight =>
    case Down =>
    case DownLeft =>
    case Left =>
    case UpLeft =>
  }

  /** On the 3x3 grid the selection is injective: distinct vectors give
      distinct hats. */
  lemma HatOfInjective(a: Vec, b: Vec)
    requires InRange(a) && InRange(b)
    ensures HatOf(a.x, a.y) == HatOf(b.x, b.y) <==> a == b
  {
    var ha, hb := HatOf(a.x, a.y), HatOf(b.x, b.y);
    assert HatVector(ha) == a;
    assert HatVector(hb) == b;
  }

  /** The nine rows of the table, y < 0 being up. */
  lemma HatTable()
    ensures HatOf(0, 0) == Centered && HatOf(0, -1) == Up && HatOf(0, 1) == Down
    ensures HatOf(-1, 0) == Left && HatOf(1, 0) == Right
    ensures HatOf(-1, -1) == UpLeft && HatOf(1, -1) == UpRight
    ensures HatOf(-1, 1) == DownLeft && HatOf(1, 1) == DownRight
  {
  }

  /** LEFT and UP held together give the up-left diagonal; all four held
      together cancel to the centre. */
  lemma StickScenarios()
    ensures Stick([Low, High, High, Low]) == Vec(-1, -1)
    ensures HatOf(Stick([Low, High, High, Low]).x, Stick([Low, High, High, Low]).y) == UpLeft
    ensures Stick([Low, Low, Low, Low]) == Vec(0, 0)
    ensures HatOf(Stick([Low, Low, Low, Low]).x, Stick([Low, Low, Low, Low]).y) == Centered
  {
  }
}
