/** JSON values and their equality, as the nlohmann library gives them.

    A JSON object is a finite map; the order in which a program visits its
    members is supplied by whoever visits it. Floating-point numbers are reals:
    rounding and NaN are not modelled. */
module Json {

  const INT64_MIN: int := -0x8000_0000_0000_0000
  const TWO_TO_THE_32: int := 0x1_0000_0000
  const TWO_TO_THE_63: int := 0x8000_0000_0000_0000
  const TWO_TO_THE_64: int := 0x1_0000_0000_0000_0000

  type Int64 = i: int | INT64_MIN <= i < TWO_TO_THE_63
  type UInt64 = u: int | 0 <= u < TWO_TO_THE_64

  datatype Json =
    | Null
    | Bool(b: bool)
    | Int(i: Int64)
    | Unsigned(u: UInt64)
    | Float(r: real)
    | Str(s: string)
    | Arr(elems: seq<Json>)
    | Obj(members: map<string, Json>)
  {
    /** Neither an array nor an object. */
    predicate Scalar() {
      !Arr? && !Obj?
    }
  }

  /** The conversions `static_cast<int64_t>`, `get<int>` and `get<unsigned int>`. */
  function ToInt64(n: int): (r: Int64)
    ensures INT64_MIN <= n < TWO_TO_THE_63 <==> r == n
    ensures (r - n) % TWO_TO_THE_64 == 0
  {
    (n + TWO_TO_THE_63) % TWO_TO_THE_64 - TWO_TO_THE_63
  }

  function ToInt32(n: int): (r: int)
    ensures -0x8000_0000 <= r < 0x8000_0000
    ensures -0x8000_0000 <= n < 0x8000_0000 <==> r == n
    ensures (r - n) % TWO_TO_THE_32 == 0
  {
    (n + 0x8000_0000) % TWO_TO_THE_32 - 0x8000_0000
  }

  function ToUInt32(n: nat): (r: nat)
    ensures r < TWO_TO_THE_32
    ensures n < TWO_TO_THE_32 <==> r == n
    ensures (r - n) % TWO_TO_THE_32 == 0
  {
    n % TWO_TO_THE_32
  }

  /** `operator==` on JSON values. Numbers of different kinds are compared
      after one of them is converted, so an unsigned number meets a signed one
      modulo 2^64. */
  predicate JsonEq(a: Json, b: Json) {
    match (a, b)
    case (Null, Null) => true
    case (Bool(x), Bool(y)) => x == y
    case (Int(x), Int(y)) => x == y
    case (Unsigned(x), Unsigned(y)) => x == y
    case (Float(x), Float(y)) => x == y
    case (Int(x), Float(y)) => x as real == y
    case (Float(x), Int(y)) => x == y as real
    case (Unsigned(x), Float(y)) => x as real == y
    case (Float(x), Unsigned(y)) => x == y as real
    case (Unsigned(x), Int(y)) => ToInt64(x) == y
    case (Int(x), Unsigned(y)) => x == ToInt64(y)
    case (Str(x), Str(y)) => x == y
    case (Arr(x), Arr(y)) =>
      |x| == |y| && forall i | 0 <= i < |x| :: JsonEq(x[i], y[i])
    case (Obj(x), Obj(y)) =>
      x.Keys == y.Keys && forall k | k in x.Keys :: JsonEq(x[k], y[k])
    case _ => false
  }

  lemma {:induction false} JsonEqReflexive(a: Json)
    ensures JsonEq(a, a)
  {
    match a
    case Arr(x) =>
      forall i | 0 <= i < |x| ensures JsonEq(x[i], x[i]) { JsonEqReflexive(x[i]); }
    case Obj(x) =>
      forall k | k in x.Keys ensures JsonEq(x[k], x[k]) { JsonEqReflexive(x[k]); }
    case _ =>
  }

  lemma {:induction false} JsonEqSymmetric(a: Json, b: Json)
    requires JsonEq(a, b)
    ensures JsonEq(b, a)
  {
    match (a, b)
    case (Arr(x), Arr(y)) =>
      forall i | 0 <= i < |x| ensures JsonEq(y[i], x[i]) { JsonEqSymmetric(x[i], y[i]); }
    case (Obj(x), Obj(y)) =>
      forall k | k in x.Keys ensures JsonEq(y[k], x[k]) { JsonEqSymmetric(x[k], y[k]); }
    case _ =>
  }

  // ----- what equality means -----

  predicate IsNumber(a: Json) {
    a.Int? || a.Unsigned? || a.Float?
  }

  function IntegerOf(a: Json): int
    requires a.Int? || a.Unsigned?
  {
    if a.Int? then a.i else a.u
  }

  function RealOf(a: Json): real
    requires IsNumber(a)
  {
    if a.Float? then a.r else IntegerOf(a) as real
  }

  /** Two numbers agree: by value, but two integers only modulo 2^64. */
  predicate SameNumber(a: Json, b: Json)
    requires IsNumber(a) && IsNumber(b)
  {
    if a.Float? || b.Float? then RealOf(a) == RealOf(b) else (IntegerOf(a) - IntegerOf(b)) % TWO_TO_THE_64 == 0
  }

  /** Numbers of any two kinds are equal exactly if they agree. */
  lemma NumbersEqIff(a: Json, b: Json)
    requires IsNumber(a) && IsNumber(b)
    ensures JsonEq(a, b) <==> SameNumber(a, b)
  {
  }

  /** Nowhere is a number compared with a number of another kind. */
  predicate SameNumberKinds(a: Json, b: Json) {
    match (a, b)
    case (Arr(x), Arr(y)) => |x| == |y| ==> forall i | 0 <= i < |x| :: SameNumberKinds(x[i], y[i])
    case (Obj(x), Obj(y)) => x.Keys == y.Keys ==> forall k | k in x.Keys :: SameNumberKinds(x[k], y[k])
    case _ => IsNumber(a) && IsNumber(b) ==> (a.Int? <==> b.Int?) && (a.Float? <==> b.Float?)
  }

  /** Then equality is identity, for JSON of any nesting. */
  lemma {:induction false} JsonEqIsIdentity(a: Json, b: Json)
    requires SameNumberKinds(a, b)
    ensures JsonEq(a, b) <==> a == b
  {
    match (a, b)
    case (Arr(x), Arr(y)) =>
      if |x| == |y| {
        forall i | 0 <= i < |x| ensures JsonEq(x[i], y[i]) <==> x[i] == y[i] { JsonEqIsIdentity(x[i], y[i]); }
      }
    case (Obj(x), Obj(y)) =>
      if x.Keys == y.Keys {
        forall k | k in x.Keys ensures JsonEq(x[k], y[k]) <==> x[k] == y[k] { JsonEqIsIdentity(x[k], y[k]); }
      }
    case _ =>
  }

  /** `a`, with each number for which `b` has one that agrees written as `b` writes it. */
  function Recast(a: Json, b: Json): Json {
    match (a, b)
    case (Arr(x), Arr(y)) =>
      if |x| == |y| then Arr(seq(|x|, i requires 0 <= i < |x| => Recast(x[i], y[i]))) else a
    case (Obj(x), Obj(y)) =>
      if x.Keys == y.Keys then Obj(map k | k in x.Keys :: Recast(x[k], y[k])) else a
    case _ => if IsNumber(a) && IsNumber(b) && SameNumber(a, b) then b else a
  }

  /** Equality in general: one value is the other but for the kinds of its numbers. */
  lemma {:induction false} JsonEqIff(a: Json, b: Json)
    ensures JsonEq(a, b) <==> Recast(a, b) == b
  {
    match (a, b)
    case (Arr(x), Arr(y)) =>
      if |x| == |y| {
        forall i | 0 <= i < |x| ensures JsonEq(x[i], y[i]) <==> Recast(x[i], y[i]) == y[i] {
          JsonEqIff(x[i], y[i]);
        }
      }
    case (Obj(x), Obj(y)) =>
      if x.Keys == y.Keys {
        forall k | k in x.Keys ensures JsonEq(x[k], y[k]) <==> Recast(x[k], y[k]) == y[k] {
          JsonEqIff(x[k], y[k]);
        }
      }
    case _ =>
  }

  /** Equality is not transitive: the unsigned 2^63 equals the signed -2^63 and also the
      float 2^63, which differ from each other. Each of the three has an exact
      representation. */
  lemma JsonEqNotTransitive()
    ensures JsonEq(Int(INT64_MIN), Unsigned(TWO_TO_THE_63))
    ensures JsonEq(Unsigned(TWO_TO_THE_63), Float(TWO_TO_THE_63 as real))
    ensures !JsonEq(Int(INT64_MIN), Float(TWO_TO_THE_63 as real))
  {
  }
}
