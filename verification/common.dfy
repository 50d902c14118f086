/** Shared vocabulary of the model: optional values, exact 2D vectors and the
    JavaScript remainder operator. */
module Common {

  /** A value that may be absent (JavaScript `null` / `undefined`). */
  datatype Option<+T> = None | Some(value: T)

  /** A point or displacement in world coordinates, with exact arithmetic. */
  datatype Vec = Vec(x: real, y: real) {
    function Plus(other: Vec): Vec {
      Vec(x + other.x, y + other.y)
    }

    function Minus(other: Vec): Vec {
      Vec(x - other.x, y - other.y)
    }
  }

  const Origin: Vec := Vec(0.0, 0.0)

  /** A CSS fill colour: a literal string, or an `hsl(hue, sat%, light%)` value. */
  datatype Color = Css(text: string) | Hsl(hue: real, saturation: int, lightness: int)

  /** Diagnostic data a generator attaches to a polygon: the point where the
      boundary walk ended (`closureError` is its distance to the origin). */
  datatype Meta = NoMeta | ClosureMeta(closureEnd: Vec)

  /** A closed polygon as handed to the renderer: its boundary path, a fill,
      an optional stroke and metadata. */
  datatype Polygon = Polygon(path: seq<Vec>, color: Color, stroke: Option<string>, meta: Meta)

  function Abs(a: int): nat {
    if a < 0 then -a else a
  }

  /** JavaScript's `a % b`: the magnitude is `|a| mod |b|` and the sign follows
      the dividend (Dafny's own `%` is Euclidean and never negative). */
  function JsRem(a: int, b: int): (r: int)
    requires b != 0
    ensures a >= 0 ==> 0 <= r < Abs(b)
    ensures a < 0 ==> r <= 0 && -r < Abs(b)
    ensures a >= 0 && b > 0 ==> r == a % b
  {
    var m := Abs(a) % Abs(b);
    if a >= 0 then m else -m
  }

  /** `JsRem(a, b)` differs from `a` by a multiple of `b`: with the sign and
      range its contract gives, this pins it down as the truncating remainder. */
  lemma JsRemCongruent(a: int, b: int)
    requires b != 0
    ensures (a - JsRem(a, b)) % Abs(b) == 0
  {
    var n := Abs(b);
    var q := Abs(a) / n;
    assert Abs(a) == n * q + Abs(a) % n;
    if a >= 0 {
      assert a - JsRem(a, b) == n * q;
      MultipleRem(n, q);
    } else {
      assert a - JsRem(a, b) == n * -q;
      MultipleRem(n, -q);
    }
  }

  /** A multiple of a positive `d` leaves no remainder. */
  lemma MultipleRem(d: int, q: int)
    requires d > 0
    ensures (d * q) % d == 0
  {
    var x := d * q;
    var t := q - x / d;
    assert d * t == x % d;
  }

  /** Multiplying by a non-negative factor keeps `<=`. */
  lemma MulLe(a: int, b: int, c: int)
    requires a <= b && c >= 0
    ensures a * c <= b * c
  {
  }
}
