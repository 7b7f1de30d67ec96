/** The solver model as the builder produces it: a list of primitive posts
    over five integer variables — one fruit variable `x[i]` in 0..3 per person
    and Bobby's dish variable `y[0]` in 0..1. An exactly-one pattern (one
    indicator boolean per code, each forcing `var == code` when true, and the
    indicators summing to one) is a single primitive here; its booleans are
    projected out, so it holds exactly when the variable equals one of the
    codes. */
module Primitives {
  import opened Domain

  datatype Var = Fruit(p: Person) | Dish

  datatype Prim =
    | EqVar(a: Var, b: Var)                // model.Add(a == b)
    | NeVar(a: Var, b: Var)                // model.Add(a != b)
    | NeCode(v: Var, code: int)            // model.Add(v != code)
    | ExactlyOne(v: Var, codes: seq<int>)  // indicators with OnlyEnforceIf, sum == 1
    | Guarded(v: Var, code: int)           // one indicator with OnlyEnforceIf and no sum
    | NonNeg(v: Var)                       // model.Add(v >= 0)

  type Picks = s: seq<int> | |s| == 4 witness [0, 0, 0, 0]

  /** A total assignment: `x` indexed like `default_person`, and `y`. */
  datatype Assignment = Assignment(x: Picks, y: int)

  function Value(a: Assignment, v: Var): int
  {
    match v
    case Fruit(p) => a.x[Index(p)]
    case Dish => a.y
  }

  predicate Holds(p: Prim, a: Assignment)
  {
    match p
    case EqVar(u, w) => Value(a, u) == Value(a, w)
    case NeVar(u, w) => Value(a, u) != Value(a, w)
    case NeCode(v, c) => Value(a, v) != c
    case ExactlyOne(v, cs) => Value(a, v) in cs
    case Guarded(_, _) => true
    case NonNeg(v) => Value(a, v) >= 0
  }

  /** The assignment satisfies every post of the model. */
  predicate Sat(m: seq<Prim>, a: Assignment)
  {
    forall i :: 0 <= i < |m| ==> Holds(m[i], a)
  }

  lemma SatConcat(m1: seq<Prim>, m2: seq<Prim>, a: Assignment)
    ensures Sat(m1 + m2, a) <==> Sat(m1, a) && Sat(m2, a)
  {
    if Sat(m1, a) && Sat(m2, a) {
      forall i | 0 <= i < |m1 + m2| ensures Holds((m1 + m2)[i], a) {
        if i >= |m1| { assert (m1 + m2)[i] == m2[i - |m1|]; }
      }
    }
    if Sat(m1 + m2, a) {
      forall i | 0 <= i < |m1| ensures Holds(m1[i], a) {
        assert (m1 + m2)[i] == m1[i];
      }
      forall i | 0 <= i < |m2| ensures Holds(m2[i], a) {
        assert (m1 + m2)[|m1| + i] == m2[i];
      }
    }
  }

  /** The variable domains: `NewIntVar(0, len(shop) - 1)`. */
  predicate InDomain(a: Assignment)
  {
    && (forall i :: 0 <= i < 4 ==> 0 <= a.x[i] < |Catalog(FruitShop)|)
    && 0 <= a.y < |Catalog(DishShop)|
  }

  /** The number of assignments in the domain: 4^4 * 2. */
  const DomainSize: nat := 512

  /** A position for every assignment of the domain. */
  function Encode(a: Assignment): int
  {
    a.x[0] + 4 * a.x[1] + 16 * a.x[2] + 64 * a.x[3] + 256 * a.y
  }

  function Decode(k: nat): Assignment
  {
    Assignment([k % 4, (k / 4) % 4, (k / 16) % 4, (k / 64) % 4], (k / 256) % 2)
  }

  lemma DivMod4(q: int, r: int)
    requires 0 <= r < 4 && 0 <= q
    ensures (4 * q + r) / 4 == q && (4 * q + r) % 4 == r
  {
  }

  /** Every position below 512 is an assignment of the domain and encodes back to itself. */
  lemma {:induction false} EncodeDecode(k: nat)
    requires k < DomainSize
    ensures InDomain(Decode(k)) && Encode(Decode(k)) == k
  {
    var a := Decode(k);
    DivMod4(k / 4, k % 4);
    DivMod4(k / 16, (k / 4) % 4);
    DivMod4(k / 64, (k / 16) % 4);
    assert k / 16 == (k / 4) / 4;
    assert k / 64 == (k / 16) / 4;
    assert k / 256 == (k / 64) / 4;
    assert k == 4 * (k / 4) + k % 4;
    assert k / 4 == 4 * (k / 16) + (k / 4) % 4;
    assert k / 16 == 4 * (k / 64) + (k / 16) % 4;
    assert k / 64 == 4 * (k / 256) + (k / 64) % 4;
  }

  /** Every assignment of the domain has a position below 512 that decodes back to it. */
  lemma {:induction false} DecodeEncode(a: Assignment)
    requires InDomain(a)
    ensures 0 <= Encode(a) < DomainSize && Decode(Encode(a)) == a
  {
    assert 0 <= a.x[0] < 4 && 0 <= a.x[1] < 4 && 0 <= a.x[2] < 4 && 0 <= a.x[3] < 4;
    var k := Encode(a);
    var q1 := a.x[1] + 4 * a.x[2] + 16 * a.x[3] + 64 * a.y;
    var q2 := a.x[2] + 4 * a.x[3] + 16 * a.y;
    var q3 := a.x[3] + 4 * a.y;
    assert k == 4 * q1 + a.x[0];
    DivMod4(q1, a.x[0]);
    assert q1 == 4 * q2 + a.x[1];
    DivMod4(q2, a.x[1]);
    assert q2 == 4 * q3 + a.x[2];
    DivMod4(q3, a.x[2]);
    assert q3 == 4 * a.y + a.x[3];
    DivMod4(a.y, a.x[3]);
    assert k / 16 == (k / 4) / 4;
    assert k / 64 == (k / 16) / 4;
    assert k / 256 == (k / 64) / 4;
    assert Decode(k).x == a.x;
  }
}
