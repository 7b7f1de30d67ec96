/** The add-constraint dialog up to the conflict check: the menu choice and
    the answers to its prompts become a candidate record, and the dialog
    posts the candidate's primitives straight into the live model. These
    incremental posts are not the ones `rebuild_model` would make for the
    same record, and the lemmas here say where they agree and where not.
    The two ordering choices ("Must order from specific shop", "Must not
    order from specific shop") contain "from specific shop", so they take
    the dialog's first branch, which asks for a shop and then, being neither
    "Same" nor "Different", does nothing more: the branch written for them is
    never reached, they post nothing, raise no error and keep the menu tag. */
module Requests {
  import opened Domain
  import opened Rules
  import opened Primitives
  import opened Builder
  import opened Conflicts

  /** One pass through the dialog with every prompt answered: the menu
      choice and the person, shop, second person or items it asks for.
      `note` is the free-text explanation, empty when it was skipped. */
  datatype Request =
    | SameReq(p1: Person, note: string, shop: Shop, p2: Person)
    | DifferentReq(p1: Person, note: string, shop: Shop, p2: Person)
    | OrderReq(p1: Person, note: string, shop: Shop)
    | NotOrderReq(p1: Person, note: string, shop: Shop)
    | CannotReq(p1: Person, note: string, shop: Shop, items: seq<Item>)
    | MustSelectReq(p1: Person, note: string, shop: Shop, items: seq<Item>)

  /** Item lists are picked from the chosen shop's own list. */
  predicate WellFormed(req: Request)
  {
    (req.CannotReq? || req.MustSelectReq?) ==> AllInCatalog(req.shop, req.items)
  }

  /** `more_description` is stored only when the answer is not empty. */
  function Note(s: string): (n: Option<string>)
    ensures n.Some? <==> s != ""
    ensures n.Some? ==> n.value == s
  {
    if s == "" then None else Some(s)
  }

  /** The dictionary the dialog builds. Its `type` is the menu text lowered
      with underscores; it has no `is_default` key, and an ordering choice
      keeps the empty description it started with. */
  function Candidate(req: Request): (r: Record)
    ensures r.person1 == req.p1 && r.shop == req.shop && r.note == Note(req.note) && !r.isDefault
    ensures r.person2.Some? <==> req.SameReq? || req.DifferentReq?
    ensures r.items.Some? <==> req.CannotReq? || req.MustSelectReq?
    ensures r.items.Some? ==> r.items.value == req.items
    ensures r.person2.Some? ==> r.person2.value == req.p2
    ensures r.kind !in {CannotSelect, MustSelect, MustOrder, MustNotOrder, SameSelection, DifferentSelection}
  {
    var who := PersonName(req.p1);
    var where := ShopName(req.shop);
    var note := Note(req.note);
    match req
    case SameReq(_, _, _, p2) =>
      Record(SameSelectionFromSpecificShop, req.p1, Some(p2), req.shop, None,
             who + " must have same selection as " + PersonName(p2) + " in " + where, note, false)
    case DifferentReq(_, _, _, p2) =>
      Record(DifferentSelectionFromSpecificShop, req.p1, Some(p2), req.shop, None,
             who + " must have different selection from " + PersonName(p2) + " in " + where, note, false)
    case OrderReq(_, _, _) =>
      Record(MustOrderFromSpecificShop, req.p1, None, req.shop, None, "", note, false)
    case NotOrderReq(_, _, _) =>
      Record(MustNotOrderFromSpecificShop, req.p1, None, req.shop, None, "", note, false)
    case CannotReq(_, _, _, items) =>
      Record(CannotSelectSpecificItems, req.p1, None, req.shop, Some(items),
             who + " cannot select " + JoinNames(items) + " from " + where, note, false)
    case MustSelectReq(_, _, _, items) =>
      Record(MustSelectSpecificItems, req.p1, None, req.shop, Some(items),
             who + " must select one of " + JoinNames(items) + " from " + where, note, false)
  }

  /** The situations in which the dialog shows an error and returns before
      storing anything: an empty item list, and every person/shop pair of a
      relational or item rule that has no variable to constrain. The
      ordering choices never show one. */
  predicate DialogError(req: Request)
  {
    match req
    case SameReq(p1, _, shop, p2) => shop == DishShop && !(p1 == Bobby && p2 == Bobby)
    case DifferentReq(_, _, shop, _) => shop == DishShop
    case OrderReq(_, _, _) => false
    case NotOrderReq(_, _, _) => false
    case CannotReq(p1, _, shop, items) => items == [] || (shop == DishShop && p1 != Bobby)
    case MustSelectReq(p1, _, shop, items) => items == [] || (shop == DishShop && p1 != Bobby)
  }

  /** The variable an item rule of the dialog talks about. */
  function Target(p: Person, s: Shop): Var
  {
    if s == FruitShop then Fruit(p) else Dish
  }

  /** What the dialog posts into the live model before the conflict check,
      or `None` when it stops at an error. On the error paths nothing is
      posted: each error is raised before the first `model.Add`. */
  function Posts(req: Request): (r: Option<seq<Prim>>)
    requires WellFormed(req)
    ensures r.None? <==> DialogError(req)
  {
    match req
    case SameReq(p1, _, shop, p2) =>
      if shop == FruitShop then Some([EqVar(Fruit(p1), Fruit(p2))])
      else if p1 == Bobby && p2 == Bobby then Some([NonNeg(Dish)])
      else None
    case DifferentReq(p1, _, shop, p2) =>
      if shop == FruitShop then Some([NeVar(Fruit(p1), Fruit(p2))]) else None
    case OrderReq(_, _, _) => Some([])
    case NotOrderReq(_, _, _) => Some([])
    case CannotReq(p1, _, shop, items) =>
      if items == [] || (shop == DishShop && p1 != Bobby) then None
      else
        var cs := Codes(shop, items);
        Some(seq(|cs|, j requires 0 <= j < |cs| => NeCode(Target(p1, shop), cs[j])))
    case MustSelectReq(p1, _, shop, items) =>
      if items == [] || (shop == DishShop && p1 != Bobby) then None
      else Some([ExactlyOne(Target(p1, shop), Codes(shop, items))])
  }

  /** The two requests whose incremental posts the rebuild does not repeat:
      Bobby's item rules on the Dish Shop. */
  predicate DishItemRule(req: Request)
  {
    (req.CannotReq? || req.MustSelectReq?) && req.shop == DishShop
  }

  /** The incremental posts of one request, read on an assignment. */
  lemma PairPostsMeaning(req: Request, a: Assignment)
    requires WellFormed(req) && !DialogError(req) && (req.SameReq? || req.DifferentReq?)
    requires InDomain(a)
    ensures Sat(Posts(req).value, a) <==> Meaning(Candidate(req), a)
  {
    var ps := Posts(req).value;
    assert |ps| == 1;
    assert Holds(ps[0], a) <==> Meaning(Candidate(req), a);
  }

  /** An ordering choice posts nothing, and no conflict is ever reported for
      it: not when it is the candidate, and not against it once it is stored,
      because its tag is not one of the two exact ordering tags and it names
      neither a second person nor items. */
  lemma OrderingChoiceInert(req: Request, cs: seq<Record>)
    requires req.OrderReq? || req.NotOrderReq?
    ensures Posts(req) == Some([]) && Candidate(req).description == ""
    ensures Detect(Candidate(req), cs) == []
    ensures forall c :: ReportsFor(c, Candidate(req)) == []
  {
    DetectEmpty(Candidate(req), cs);
  }

  /** An item choice is never reported as the candidate either: its tag is
      not `must_select`, so the item check cannot fire, it is not an exact
      ordering tag, and it names no second person. */
  lemma {:induction false} ItemChoiceNeverReported(req: Request, cs: seq<Record>)
    requires req.CannotReq? || req.MustSelectReq?
    ensures Detect(Candidate(req), cs) == []
    decreases |cs|
  {
    if cs != [] {
      ItemChoiceNeverReported(req, cs[1..]);
    }
  }

  lemma CannotPostsMeaning(req: Request, a: Assignment)
    requires WellFormed(req) && !DialogError(req) && req.CannotReq? && req.shop == FruitShop
    ensures Sat(Posts(req).value, a) <==> Meaning(Candidate(req), a)
  {
    var ps := Posts(req).value;
    var x := a.x[Index(req.p1)];
    var items := req.items;
    var cs := Codes(FruitShop, items);
    assert Target(req.p1, FruitShop) == Fruit(req.p1);
    assert |ps| == |items| && forall j :: 0 <= j < |ps| ==> ps[j] == NeCode(Fruit(req.p1), cs[j]);
    var r := Candidate(req);
    assert Dispatch(r.kind) == CannotSel && r.items == Some(items);
    assert Meaning(r, a) <==> forall j :: 0 <= j < |items| ==> Code(FruitShop, items[j]) != Some(x);
    if Sat(ps, a) {
      forall j | 0 <= j < |items| ensures Code(FruitShop, items[j]) != Some(x) {
        assert Holds(ps[j], a);
      }
    }
  }

  lemma MustSelectPostsMeaning(req: Request, a: Assignment)
    requires WellFormed(req) && !DialogError(req) && req.MustSelectReq? && req.shop == FruitShop
    ensures Sat(Posts(req).value, a) <==> Meaning(Candidate(req), a)
  {
    var x := a.x[Index(req.p1)];
    var cs := Codes(FruitShop, req.items);
    assert Sat(Posts(req).value, a) <==> x in cs by {
      assert Target(req.p1, FruitShop) == Fruit(req.p1);
      var ps := Posts(req).value;
      assert ps == [ExactlyOne(Fruit(req.p1), cs)];
      assert Sat(ps, a) <==> Holds(ps[0], a);
    }
    var r := Candidate(req);
    assert Meaning(r, a) <==> exists j :: 0 <= j < |req.items| && Code(FruitShop, req.items[j]) == Some(x) by {
      assert Dispatch(r.kind) == MustSel;
    }
    CodesContain(req.items, x);
  }

  /** A fruit code is among the codes of a list exactly when some item of
      the list has it. */
  lemma CodesContain(items: seq<Item>, x: int)
    requires AllInCatalog(FruitShop, items)
    ensures x in Codes(FruitShop, items) <==> exists j :: 0 <= j < |items| && Code(FruitShop, items[j]) == Some(x)
  {
    var cs := Codes(FruitShop, items);
    if x in cs {
      var j :| 0 <= j < |cs| && cs[j] == x;
      assert Code(FruitShop, items[j]) == Some(x);
    }
  }

  /** Outside Bobby's Dish Shop item rules and a must-not-order on the Fruit
      Shop, the incremental posts mean what the stored record means, and the
      rebuild translates that record completely into posts with the same
      solutions. An ordering choice posts nothing, and within the domain its
      record holds anyway, except a must-not-order on the Fruit Shop, whose
      record no assignment in the domain satisfies. */
  lemma IncrementalAgreesWithRebuild(req: Request, a: Assignment)
    requires WellFormed(req) && !DialogError(req) && !DishItemRule(req)
    requires !(req.NotOrderReq? && req.shop == FruitShop)
    requires InDomain(a)
    ensures Translate(Candidate(req)).Applied?
    ensures Sat(Posts(req).value, a) <==> Meaning(Candidate(req), a)
    ensures Sat(Posts(req).value, a) <==> Sat(Translate(Candidate(req)).posts, a)
  {
    CandidateApplied(req);
    if req.SameReq? || req.DifferentReq? {
      PairPostsMeaning(req, a);
    } else if req.OrderReq? || req.NotOrderReq? {
      assert Dispatch(Candidate(req).kind) == if req.OrderReq? then MustOrd else MustNotOrd;
    } else if req.CannotReq? {
      CannotPostsMeaning(req, a);
    } else {
      MustSelectPostsMeaning(req, a);
    }
    TranslateMeaning(Candidate(req), a);
  }

  /** Every record the dialog stores translates completely: its items come
      from the shop's own list and its second person is always there. */
  lemma CandidateApplied(req: Request)
    requires WellFormed(req)
    ensures Translate(Candidate(req)).Applied?
  {
    var r := Candidate(req);
    if (req.CannotReq? || req.MustSelectReq?) && req.shop == FruitShop {
      assert ValidPrefix(FruitShop, req.items) == |req.items|;
      if req.CannotReq? {
        assert Dispatch(r.kind) == CannotSel;
      } else {
        assert Dispatch(r.kind) == MustSel;
      }
    }
  }

  /** Bobby's item rules on the Dish Shop do restrict his dish in the live
      model, but the stored record translates to nothing, so the restriction
      is gone after the next rebuild. */
  lemma DishItemRuleLostOnRebuild(req: Request, a: Assignment)
    requires WellFormed(req) && !DialogError(req) && DishItemRule(req)
    ensures Translate(Candidate(req)) == Applied([])
    ensures req.CannotReq? ==> (Sat(Posts(req).value, a) <==> a.y !in Codes(DishShop, req.items))
    ensures req.MustSelectReq? ==> (Sat(Posts(req).value, a) <==> a.y in Codes(DishShop, req.items))
  {
    var ps := Posts(req).value;
    var cs := Codes(DishShop, req.items);
    assert Target(req.p1, DishShop) == Dish;
    if req.CannotReq? {
      assert forall j :: 0 <= j < |cs| ==> ps[j] == NeCode(Dish, cs[j]);
      if Sat(ps, a) {
        forall j | 0 <= j < |cs| ensures cs[j] != a.y {
          assert Holds(ps[j], a);
        }
      }
    } else {
      assert Holds(ps[0], a) <==> a.y in cs;
    }
  }
}
