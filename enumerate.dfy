/** The solution side: the exhaustive search the solver is asked for, done
    here by brute force over the 4^4 * 2 assignments of the five variables,
    and `SolutionPrinter`, whose callback counts the solutions and lays out
    one row per displayed person and shop. */
module Enumerate {
  import opened Domain
  import opened Primitives

  /** Every satisfying assignment of the domain, each exactly once, in the
      order of their positions. */
  method SearchAll(m: seq<Prim>) returns (sols: seq<Assignment>)
    ensures forall a :: a in sols <==> InDomain(a) && Sat(m, a)
    ensures forall i, j :: 0 <= i < j < |sols| ==> Encode(sols[i]) < Encode(sols[j])
  {
    sols := [];
    var k := 0;
    while k < DomainSize
      invariant 0 <= k <= DomainSize
      invariant forall a :: a in sols <==> InDomain(a) && Sat(m, a) && Encode(a) < k
      invariant forall i :: 0 <= i < |sols| ==> Encode(sols[i]) < k
      invariant forall i, j :: 0 <= i < j < |sols| ==> Encode(sols[i]) < Encode(sols[j])
    {
      var a := Decode(k);
      EncodeDecode(k);
      forall b | InDomain(b) && Encode(b) == k ensures b == a {
        DecodeEncode(b);
      }
      if Sat(m, a) {
        sols := sols + [a];
      }
      k := k + 1;
    }
    forall a | InDomain(a) ensures Encode(a) < DomainSize {
      DecodeEncode(a);
    }
  }

  /** Positions strictly increase, so no assignment is reported twice. */
  lemma SortedIsDistinct(sols: seq<Assignment>)
    requires forall i, j :: 0 <= i < j < |sols| ==> Encode(sols[i]) < Encode(sols[j])
    ensures forall i, j :: 0 <= i < |sols| && 0 <= j < |sols| && i != j ==> sols[i] != sols[j]
  {
    forall i, j | 0 <= i < |sols| && 0 <= j < |sols| && i != j ensures sols[i] != sols[j] {
      if i < j { assert Encode(sols[i]) < Encode(sols[j]); } else { assert Encode(sols[j]) < Encode(sols[i]); }
    }
  }

  datatype Cell = Selected | NotApplicable

  /** The selections of one person in one shop: "Selected" at the chosen
      code and "N/A" everywhere else; a person other than Bobby has no dish
      variable, so their Dish Shop row is all "N/A". */
  function Row(s: Shop, p: Person, a: Assignment): (r: seq<Cell>)
    requires InDomain(a)
    ensures |r| == |Catalog(s)|
    ensures forall i :: 0 <= i < |r| ==>
              (r[i] == Selected <==> (s == FruitShop && i == a.x[Index(p)]) || (s == DishShop && p == Bobby && i == a.y))
  {
    var blank := seq(|Catalog(s)|, _ => NotApplicable);
    if s == FruitShop then blank[a.x[Index(p)] := Selected]
    else if p == Bobby then blank[a.y := Selected]
    else blank
  }

  /** `display_options`: the shops and the people whose rows are shown. */
  datatype Display = Display(shops: set<Shop>, people: set<Person>)

  /** One piece of output; the text layout (padding, separators) is not modelled. */
  datatype Line = SolutionHeading(n: nat) | ShopHeader(s: Shop) | RowLine(p: Person, cells: seq<Cell>)

  function PeopleRows(s: Shop, ps: seq<Person>, d: Display, a: Assignment): (ls: seq<Line>)
    requires InDomain(a)
    ensures forall l :: l in ls <==> exists p :: p in ps && p in d.people && l == RowLine(p, Row(s, p, a))
  {
    if ps == [] then []
    else (if ps[0] in d.people then [RowLine(ps[0], Row(s, ps[0], a))] else []) + PeopleRows(s, ps[1..], d, a)
  }

  function ShopBlock(s: Shop, d: Display, a: Assignment): seq<Line>
    requires InDomain(a)
  {
    if s in d.shops then [ShopHeader(s)] + PeopleRows(s, People, d, a) else []
  }

  /** What `on_solution_callback` writes for the `n`-th solution. */
  function Render(n: nat, a: Assignment, d: Display): seq<Line>
    requires InDomain(a)
  {
    [SolutionHeading(n)] + ShopBlock(FruitShop, d, a) + ShopBlock(DishShop, d, a)
  }

  /** The rendering of a solution shows exactly the displayed people in the
      displayed shops, each with the row of their own selection. */
  lemma RenderShows(n: nat, a: Assignment, d: Display, p: Person, cells: seq<Cell>)
    requires InDomain(a)
    ensures RowLine(p, cells) in Render(n, a, d) <==>
              p in d.people && exists s :: s in d.shops && cells == Row(s, p, a)
  {
    var l := RowLine(p, cells);
    ShopBlockShows(FruitShop, d, a, p, cells);
    ShopBlockShows(DishShop, d, a, p, cells);
    assert l in Render(n, a, d) <==> l in ShopBlock(FruitShop, d, a) || l in ShopBlock(DishShop, d, a);
    if exists s :: s in d.shops && cells == Row(s, p, a) {
      var s :| s in d.shops && cells == Row(s, p, a);
      assert s == FruitShop || s == DishShop;
    }
  }

  /** A shop's block has a row for a person exactly when both are displayed. */
  lemma ShopBlockShows(s: Shop, d: Display, a: Assignment, p: Person, cells: seq<Cell>)
    requires InDomain(a)
    ensures RowLine(p, cells) in ShopBlock(s, d, a) <==> s in d.shops && p in d.people && cells == Row(s, p, a)
  {
    assert p in People by { assert People[Index(p)] == p; }
  }

  /** The solution callback: counts the solutions and writes each one. */
  class SolutionPrinter {
    const display: Display
    var count: nat
    var output: seq<Line>

    constructor (display: Display)
      ensures this.display == display && count == 0 && output == []
    {
      this.display := display;
      count := 0;
      output := [];
    }

    method OnSolution(a: Assignment)
      requires InDomain(a)
      modifies this
      ensures count == old(count) + 1
      ensures output == old(output) + Render(count, a, display)
    {
      count := count + 1;
      output := output + Render(count, a, display);
    }

    method SolutionCount() returns (n: nat)
      ensures n == count
    {
      n := count;
    }
  }
}
