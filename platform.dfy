/** Stand-ins for what the game takes from its environment: the `math`
    package (cosine, sine, square root as uninterpreted functions), the
    `game/config` screen constants, sprite bounds, key polling and Go's
    runtime panic. */
module Platform {

  /** math.Pi, as a real literal. */
  const Pi: real := 3.14159265358979323846

  /** config.ScreenWidth and config.ScreenHeight (1600 x 900 in main.go). */
  const ScreenWidth: real := 1600.0
  const ScreenHeight: real := 900.0

  /** math.Cos, math.Sin and math.Sqrt, left uninterpreted. */
  datatype Math = Math(cos: real -> real, sin: real -> real, sqrt: real -> real)

  /** The facts about cosine and sine that some lemmas rely on. */
  ghost predicate TrigSound(m: Math) {
    && (forall t :: m.cos(t) * m.cos(t) + m.sin(t) * m.sin(t) == 1.0)
    && (forall t :: m.cos(-t) == m.cos(t))
    && (forall t :: m.sin(-t) == -m.sin(t))
  }

  /** The facts about the square root that some lemmas rely on. */
  ghost predicate SqrtSound(m: Math) {
    forall z :: 0.0 <= z ==> 0.0 <= m.sqrt(z) && m.sqrt(z) * m.sqrt(z) == z
  }

  /** The width and height of a sprite's bounds (image.Rectangle Dx, Dy). */
  datatype Size = Size(width: nat, height: nat)

  /** The four sprites the core measures. */
  datatype Sprites = Sprites(ship: Size, bullet: Size, bigMeteor: Size, smallMeteor: Size)

  /** The keys polled by ebiten.IsKeyPressed in one frame. */
  datatype Keys = Keys(left: bool, right: bool, up: bool, space: bool)

  /** A computation that either finishes with a value or panics at run time
      (a slice expression out of range). */
  datatype Outcome<+T> = Ok(value: T) | Panic
}
