/** The solver session behind the window: the ordered store of constraint
    records and the live model, as `initialize_data` sets them up, as the
    add-constraint dialog changes them, and as the solutions dialog searches
    a filtered copy of the model. */
module Session {
  import opened Domain
  import opened Rules
  import opened Primitives
  import opened Builder
  import opened Conflicts
  import opened Requests
  import opened Lists
  import opened Resolution
  import opened Enumerate

  /** The model `initialize_data` builds: the four posts of
      `create_default_constraints`, then Bobby's exactly-one dish rule. */
  function InitialModel(): seq<Prim>
  {
    [ NeCode(Fruit(Cathy), Code(FruitShop, Salak).value),
      NeVar(Fruit(Adam), Fruit(Bobby)),
      EqVar(Fruit(Adam), Fruit(Cathy)),
      NeCode(Fruit(Dean), Code(FruitShop, Quenepa).value),
      ExactlyOne(Dish, [Code(DishShop, Pasta).value, Code(DishShop, Risotto).value]) ]
  }

  /** The start-up problem: Cathy does not take Salak, Adam and Bobby differ,
      Adam and Cathy agree, Dean does not take Quenepa, and Bobby's dish is
      Pasta or Risotto. */
  lemma DefaultScenario(a: Assignment)
    ensures Sat(InitialModel(), a) <==>
              && a.x[Index(Cathy)] != 3
              && a.x[Index(Adam)] != a.x[Index(Bobby)]
              && a.x[Index(Adam)] == a.x[Index(Cathy)]
              && a.x[Index(Dean)] != 1
              && (a.y == 0 || a.y == 1)
  {
    var m := InitialModel();
    assert Holds(m[0], a) <==> a.x[2] != 3;
    assert Holds(m[1], a) <==> a.x[0] != a.x[1];
    assert Holds(m[2], a) <==> a.x[0] == a.x[2];
    assert Holds(m[3], a) <==> a.x[3] != 1;
    assert Holds(m[4], a) <==> a.y == 0 || a.y == 1;
  }

  /** The start-up store without its texts: kinds, people, shops, items. */
  predicate StartupShaped(cs: seq<Record>)
  {
    && |cs| == 5
    && KeyOf(cs[0]) == Key(CannotSelect, Cathy, None, FruitShop) && cs[0].items == Some([Salak])
    && KeyOf(cs[1]) == Key(DifferentSelection, Adam, Some(Bobby), FruitShop)
    && KeyOf(cs[2]) == Key(SameSelection, Adam, Some(Cathy), FruitShop)
    && KeyOf(cs[3]) == Key(CannotSelect, Dean, None, FruitShop) && cs[3].items == Some([Quenepa])
    && KeyOf(cs[4]) == Key(MustOrder, Bobby, None, DishShop)
    && cs[1].items.None? && cs[2].items.None? && cs[4].items.None?
    && forall i :: 0 <= i < |cs| ==> cs[i].isDefault
  }

  lemma StartupShape()
    ensures StartupShaped(StartupRecords())
  {
  }

  /** Every start-up record has its own key and translates completely. */
  lemma StartupAllContribute(cs: seq<Record>)
    requires StartupShaped(cs)
    ensures forall i :: 0 <= i < |cs| ==> Contributes(cs, i) && Translate(cs[i]).Applied?
  {
    StartupAllApplied(cs);
    forall i | 0 <= i < |cs| ensures Contributes(cs, i) {
      StartupContributes(cs, i);
    }
  }

  lemma StartupAllApplied(cs: seq<Record>)
    requires StartupShaped(cs)
    ensures forall i :: 0 <= i < |cs| ==> Translate(cs[i]).Applied?
  {
    assert ValidPrefix(FruitShop, [Salak]) == 1;
    assert ValidPrefix(FruitShop, [Quenepa]) == 1;
  }

  lemma StartupContributes(cs: seq<Record>, i: nat)
    requires StartupShaped(cs) && i < |cs|
    ensures Contributes(cs, i)
  {
    var before := cs[..i];
    AppliedKeysChar(before, KeyOf(cs[i]));
    forall j | 0 <= j < |before| ensures KeyOf(before[j]) != KeyOf(cs[i]) {
      assert before[j] == cs[j];
      assert i in {1, 2, 3, 4} && j in {0, 1, 2, 3};
    }
  }

  lemma StartupMeanings(cs: seq<Record>, a: Assignment)
    requires StartupShaped(cs)
    ensures Meaning(cs[0], a) <==> a.x[2] != 3
    ensures Meaning(cs[1], a) <==> a.x[0] != a.x[1]
    ensures Meaning(cs[2], a) <==> a.x[0] == a.x[2]
    ensures Meaning(cs[3], a) <==> a.x[3] != 1
    ensures Meaning(cs[4], a) <==> 0 <= a.y < 2
  {
    ExcludeOneMeaning(cs[0], Salak, a);
    ExcludeOneMeaning(cs[3], Quenepa, a);
  }

  lemma ExcludeOneMeaning(r: Record, it: Item, a: Assignment)
    requires Dispatch(r.kind) == CannotSel && r.shop == FruitShop && r.items == Some([it])
    ensures Meaning(r, a) <==> Code(FruitShop, it) != Some(a.x[Index(r.person1)])
  {
    assert r.items.value[0] == it;
  }

  /** Rebuilding the start-up store gives a model with the same solutions
      as the one `initialize_data` builds by hand. */
  lemma StartupMatchesRebuild(a: Assignment)
    ensures Sat(Compiled(StartupRecords()), a) <==> Sat(InitialModel(), a)
  {
    StartupShape();
    StartupShapedMatches(StartupRecords(), a);
  }

  lemma StartupShapedMatches(cs: seq<Record>, a: Assignment)
    requires StartupShaped(cs)
    ensures Sat(Compiled(cs), a) <==> Sat(InitialModel(), a)
  {
    var holds := a.x[2] != 3 && a.x[0] != a.x[1] && a.x[0] == a.x[2] && a.x[3] != 1 && 0 <= a.y < 2;
    assert Sat(Compiled(cs), a) <==> holds by {
      StartupCompiledSat(cs, a);
      StartupMeanings(cs, a);
      if holds {
        forall i | 0 <= i < |cs| ensures Meaning(cs[i], a) {
          assert i in {0, 1, 2, 3, 4};
        }
      }
    }
    assert Sat(InitialModel(), a) <==> holds by {
      DefaultScenario(a);
    }
  }

  lemma StartupCompiledSat(cs: seq<Record>, a: Assignment)
    requires StartupShaped(cs)
    ensures Sat(Compiled(cs), a) <==> (a.y == 0 || a.y == 1) && forall i :: 0 <= i < |cs| ==> Meaning(cs[i], a)
  {
    StartupAllContribute(cs);
    forall i | 0 <= i < |cs| ensures Sat(Translate(cs[i]).posts, a) <==> Meaning(cs[i], a) {
      TranslateMeaning(cs[i], a);
    }
    CompiledSat(cs, a);
  }

  /** What the dialog did: stopped at an error, stored the candidate with no
      conflict, resolved the conflicts and rebuilt, stopped at a default the
      user kept, or failed on a `list.remove` (the dialog's `except`). */
  datatype Result = Rejected | Added | Resolved | Aborted | RemoveFailed

  datatype State = State(constraints: seq<Record>, model: seq<Prim>)

  /** One run of the add-constraint dialog on a state. */
  function AddSpec(st: State, req: Request, confirm: Record -> bool): (Result, State)
    requires WellFormed(req)
  {
    match Posts(req)
    case None => (Rejected, st)
    case Some(ps) => Settle(st.constraints, st.model + ps, Candidate(req), confirm)
  }

  /** The dialog from the conflict check on, once the candidate `c` has put
      its posts into the `live` model. */
  function Settle(store: seq<Record>, live: seq<Prim>, c: Record, confirm: Record -> bool): (Result, State)
  {
    var reports := Detect(c, store);
    if reports == [] then (Added, State(store + [c], live))
    else
      var res := Resolve(store, Targets(reports), confirm);
      match res.status
      case Declined => (Aborted, State(res.store, live))
      case Missing => (RemoveFailed, State(res.store, live))
      case Cleared =>
        var cs := res.store + [c];
        (Resolved, State(cs, Compiled(cs)))
  }

  /** A dialog error changes nothing; otherwise the candidate's incremental
      posts reach the live model whether or not the candidate is stored, and
      only a resolved conflict replaces the live model by a rebuild. */
  lemma AddSpecModel(st: State, req: Request, confirm: Record -> bool)
    requires WellFormed(req)
    ensures var (r, st') := AddSpec(st, req, confirm);
            && (r == Rejected <==> DialogError(req))
            && (r == Rejected ==> st' == st)
            && (r in {Added, Aborted, RemoveFailed} ==> st'.model == st.model + Posts(req).value)
            && (r == Resolved ==> st'.model == Compiled(st'.constraints))
  {
  }

  /** The store grows by the candidate only on `Added` and `Resolved`; on
      `Added` no existing record conflicts with it; on `Resolved` each
      reported record lost one copy. */
  lemma AddSpecStore(st: State, req: Request, confirm: Record -> bool)
    requires WellFormed(req) && !DialogError(req)
    ensures var (r, st') := AddSpec(st, req, confirm);
            var c := Candidate(req);
            var targets := Targets(Detect(c, st.constraints));
            && (r == Added ==> targets == [] && st'.constraints == st.constraints + [c])
            && (r == Resolved ==>
                  && |st'.constraints| > 0 && st'.constraints[|st'.constraints| - 1] == c
                  && multiset(st.constraints) ==
                     multiset(st'.constraints[..|st'.constraints| - 1]) + multiset(targets))
            && (r in {Aborted, RemoveFailed} ==> multiset(st'.constraints) <= multiset(st.constraints))
  {
    SettleStore(st.constraints, st.model + Posts(req).value, Candidate(req), confirm);
  }

  /** With no report the dialog stores the candidate and keeps the live
      model with the candidate's posts added; nothing is rebuilt. */
  lemma AddSpecNoConflict(st: State, req: Request, confirm: Record -> bool)
    requires WellFormed(req) && !DialogError(req)
    requires Detect(Candidate(req), st.constraints) == []
    ensures AddSpec(st, req, confirm) ==
            (Added, State(st.constraints + [Candidate(req)], st.model + Posts(req).value))
  {
  }

  /** A resolved conflict stores the old records minus the first occurrence
      of each reported record, in their old order, followed by the candidate. */
  lemma AddSpecResolvedOrder(st: State, req: Request, confirm: Record -> bool)
    requires WellFormed(req) && AddSpec(st, req, confirm).0 == Resolved
    ensures var targets := Targets(Detect(Candidate(req), st.constraints));
            && RemoveEach(st.constraints, targets).Some?
            && AddSpec(st, req, confirm).1.constraints == RemoveEach(st.constraints, targets).value + [Candidate(req)]
            && Subseq(RemoveEach(st.constraints, targets).value, st.constraints)
  {
    var targets := Targets(Detect(Candidate(req), st.constraints));
    ResolveRemovesEach(st.constraints, targets, confirm);
    ResolveStops(st.constraints, targets, confirm);
    assert targets[..|targets|] == targets;
  }

  lemma SettleStore(store: seq<Record>, live: seq<Prim>, c: Record, confirm: Record -> bool)
    ensures var out := Settle(store, live, c, confirm);
            var st' := out.1;
            var targets := Targets(Detect(c, store));
            && (out.0 == Added ==> targets == [] && st'.constraints == store + [c])
            && (out.0 == Resolved ==>
                  && |st'.constraints| > 0 && st'.constraints[|st'.constraints| - 1] == c
                  && multiset(store) == multiset(st'.constraints[..|st'.constraints| - 1]) + multiset(targets))
            && (out.0 in {Aborted, RemoveFailed} ==> multiset(st'.constraints) <= multiset(store))
  {
    var r := Settle(store, live, c, confirm).0;
    if r == Resolved {
      SettleResolved(store, live, c, confirm);
    } else if r in {Aborted, RemoveFailed} {
      SettleStopped(store, live, c, confirm);
    }
  }

  lemma SettleResolved(store: seq<Record>, live: seq<Prim>, c: Record, confirm: Record -> bool)
    requires Settle(store, live, c, confirm).0 == Resolved
    ensures var cs := Settle(store, live, c, confirm).1.constraints;
            var targets := Targets(Detect(c, store));
            && |cs| > 0 && cs[|cs| - 1] == c
            && multiset(store) == multiset(cs[..|cs| - 1]) + multiset(targets)
  {
    var targets := Targets(Detect(c, store));
    var res := Resolve(store, targets, confirm);
    ClearedRemovesAllTargets(store, targets, confirm);
    DropAppended(res.store, c);
  }

  lemma SettleStopped(store: seq<Record>, live: seq<Prim>, c: Record, confirm: Record -> bool)
    requires Settle(store, live, c, confirm).0 in {Aborted, RemoveFailed}
    ensures multiset(Settle(store, live, c, confirm).1.constraints) <= multiset(store)
  {
    var targets := Targets(Detect(c, store));
    ResolveOnlyRemoves(store, targets, confirm);
  }

  /** A default record the user refuses to override is never removed. */
  lemma AddSpecKeepsRefusedDefault(st: State, req: Request, confirm: Record -> bool, d: Record)
    requires WellFormed(req) && d.isDefault && !confirm(d)
    ensures multiset(AddSpec(st, req, confirm).1.constraints)[d] >= multiset(st.constraints)[d]
  {
    if !DialogError(req) {
      SettleKeepsRefusedDefault(st.constraints, st.model + Posts(req).value, Candidate(req), confirm, d);
    }
  }

  lemma SettleKeepsRefusedDefault(store: seq<Record>, live: seq<Prim>, c: Record, confirm: Record -> bool, d: Record)
    requires d.isDefault && !confirm(d)
    ensures multiset(Settle(store, live, c, confirm).1.constraints)[d] >= multiset(store)[d]
  {
    var reports := Detect(c, store);
    if reports == [] {
      assert multiset(store + [c]) == multiset(store) + multiset{c};
    } else {
      var res := Resolve(store, Targets(reports), confirm);
      UnconfirmedDefaultKept(store, Targets(reports), confirm, d);
      assert multiset(res.store + [c]) == multiset(res.store) + multiset{c};
    }
  }

  /** After a refused override, the candidate is not stored, yet its posts
      stay in the live model: every solution found afterwards obeys it. */
  lemma AbortedCandidateStillEnforced(st: State, req: Request, confirm: Record -> bool, a: Assignment)
    requires WellFormed(req) && AddSpec(st, req, confirm).0 == Aborted
    ensures Sat(AddSpec(st, req, confirm).1.model, a) ==> Sat(Posts(req).value, a)
  {
    SatConcat(st.model, Posts(req).value, a);
  }

  /** An ordering choice meets no conflict and is stored as it is, while
      the live model is left exactly as it was. */
  lemma OrderingChoiceStored(st: State, req: Request, confirm: Record -> bool)
    requires req.OrderReq? || req.NotOrderReq?
    ensures AddSpec(st, req, confirm) == (Added, State(st.constraints + [Candidate(req)], st.model))
  {
    OrderingChoiceInert(req, st.constraints);
    assert st.model + [] == st.model;
  }

  /** "Must not order from specific shop" on the Fruit Shop restricts nothing
      in the live model, yet its stored record makes every later rebuild of
      the store unsatisfiable: `rebuild_model` finds "must_not_order" in its
      tag and forbids every fruit code to that person. */
  lemma MustNotOrderChoiceEmptiesRebuild(st: State, req: Request, confirm: Record -> bool, a: Assignment)
    requires req.NotOrderReq? && req.shop == FruitShop && InDomain(a)
    ensures AddSpec(st, req, confirm).1.model == st.model
    ensures !Sat(Compiled(AddSpec(st, req, confirm).1.constraints), a)
  {
    OrderingChoiceStored(st, req, confirm);
    var cs := st.constraints + [Candidate(req)];
    assert Dispatch(cs[|cs| - 1].kind) == MustNotOrd;
    MustNotOrderEmptiesModel(cs, |cs| - 1, a);
  }

  /** The item filter of the solutions dialog. */
  datatype Filter = Filter(shop: Shop, items: seq<Item>, person: Person)

  /** The temporary exactly-one rule added to the copy of the model; a filter
      on the Dish Shop for someone other than Bobby adds nothing. */
  function FilterPosts(f: Filter): seq<Prim>
    requires AllInCatalog(f.shop, f.items)
  {
    if f.shop == FruitShop then [ExactlyOne(Fruit(f.person), Codes(FruitShop, f.items))]
    else if f.person == Bobby then [ExactlyOne(Dish, Codes(DishShop, f.items))]
    else []
  }

  /** The filter read on an assignment: the person's pick in that shop is
      one of the items. */
  predicate Selects(f: Filter, a: Assignment)
  {
    (f.shop == FruitShop || f.person == Bobby) ==>
      exists j :: 0 <= j < |f.items| && Code(f.shop, f.items[j]) == Some(Value(a, Target(f.person, f.shop)))
  }

  lemma FilterMeaning(f: Filter, a: Assignment)
    requires AllInCatalog(f.shop, f.items)
    ensures Sat(FilterPosts(f), a) <==> Selects(f, a)
  {
    if f.shop == FruitShop || f.person == Bobby {
      var v := Value(a, Target(f.person, f.shop));
      var cs := Codes(f.shop, f.items);
      var ps := FilterPosts(f);
      assert ps == [ExactlyOne(Target(f.person, f.shop), cs)];
      assert Holds(ps[0], a) <==> v in cs;
      assert Sat(ps, a) <==> v in cs;
      if v in cs {
        var j :| 0 <= j < |cs| && cs[j] == v;
        assert Code(f.shop, f.items[j]) == Some(v);
      }
      if Selects(f, a) {
        var j :| 0 <= j < |f.items| && Code(f.shop, f.items[j]) == Some(v);
        assert cs[j] == v;
      }
    }
  }

  /** What the solutions dialog adds to its copy of the model. */
  function FilterOf(filter: Option<Filter>): seq<Prim>
    requires filter.Some? ==> AllInCatalog(filter.value.shop, filter.value.items)
  {
    if filter.Some? then FilterPosts(filter.value) else []
  }

  /** The filtered copy has the solutions of the model that pass the filter. */
  lemma FilteredSat(m: seq<Prim>, filter: Option<Filter>, a: Assignment)
    requires filter.Some? ==> AllInCatalog(filter.value.shop, filter.value.items)
    ensures Sat(m + FilterOf(filter), a) <==> Sat(m, a) && (filter.Some? ==> Selects(filter.value, a))
  {
    SatConcat(m, FilterOf(filter), a);
    if filter.Some? {
      FilterMeaning(filter.value, a);
    }
  }

  /** Everything the printer writes for a list of solutions, numbered from 1. */
  function RenderAll(sols: seq<Assignment>, d: Display): seq<Line>
    requires forall i :: 0 <= i < |sols| ==> InDomain(sols[i])
  {
    if sols == [] then []
    else RenderAll(sols[..|sols| - 1], d) + Render(|sols|, sols[|sols| - 1], d)
  }

  class SolverSession {
    var constraints: seq<Record>
    var model: seq<Prim>

    /** `initialize_data`. */
    constructor ()
      ensures constraints == StartupRecords() && model == InitialModel()
    {
      constraints := StartupRecords();
      model := InitialModel();
    }

    /** The add-constraint dialog after its prompts: post, check, resolve,
        store and, when conflicts were resolved, rebuild. */
    method AddConstraint(req: Request, confirm: Record -> bool) returns (result: Result)
      requires WellFormed(req)
      modifies this
      ensures (result, State(constraints, model)) == AddSpec(State(old(constraints), old(model)), req, confirm)
    {
      var ps := Posts(req);
      if ps.None? {
        return Rejected;
      }
      model := model + ps.value;
      result := CheckAndStore(Candidate(req), confirm);
    }

    /** The conflict check and what follows it. */
    method CheckAndStore(c: Record, confirm: Record -> bool) returns (result: Result)
      modifies this
      ensures (result, State(constraints, model)) == Settle(old(constraints), old(model), c, confirm)
    {
      var reports := Detect(c, constraints);
      if reports == [] {
        constraints := constraints + [c];
        return Added;
      }
      var status := ResolveConflicts(Targets(reports), confirm);
      match status
      case Declined => return Aborted;
      case Missing => return RemoveFailed;
      case Cleared =>
        constraints := constraints + [c];
        model := RebuildModel(constraints);
        return Resolved;
    }

    /** The loop over the reported records: remove each one, asking first
        about a default, and stop at a refusal or a failed removal. */
    method ResolveConflicts(targets: seq<Record>, confirm: Record -> bool) returns (status: Status)
      modifies this
      ensures var res := Resolve(old(constraints), targets, confirm);
              status == res.status && constraints == res.store
      ensures model == old(model)
    {
      ghost var goal := Resolve(constraints, targets, confirm);
      var i := 0;
      while i < |targets|
        invariant 0 <= i <= |targets|
        invariant model == old(model)
        invariant var r := Resolve(constraints, targets[i..], confirm);
                  goal == Outcome(r.status, r.store, r.removed + i)
      {
        var e := targets[i];
        assert targets[i..][0] == e && targets[i..][1..] == targets[i + 1..];
        if !Confirmed(e, confirm) {
          return Declined;
        }
        var rest := RemoveFirst(constraints, e);
        if rest.None? {
          return Missing;
        }
        constraints := rest.value;
        i := i + 1;
      }
      assert targets[i..] == [];
      return Cleared;
    }

    /** The solutions dialog: search a copy of the model with the optional
        item filter added, then hand each solution to a fresh printer. The
        live model is not modified. An empty item selection ends the dialog
        before the search. */
    method FindSolutions(filter: Option<Filter>, display: Display)
      returns (searched: bool, count: nat, sols: seq<Assignment>, output: seq<Line>)
      requires filter.Some? ==> AllInCatalog(filter.value.shop, filter.value.items)
      ensures searched <==> !(filter.Some? && filter.value.items == [])
      ensures searched ==> forall a :: a in sols <==>
                InDomain(a) && Sat(model, a) && (filter.Some? ==> Selects(filter.value, a))
      ensures searched ==> forall i, j :: 0 <= i < j < |sols| ==> sols[i] != sols[j]
      ensures count == |sols|
      ensures searched ==> output == RenderAll(sols, display)
    {
      if filter.Some? && filter.value.items == [] {
        return false, 0, [], [];
      }
      searched := true;
      var temp := model + FilterOf(filter);
      sols := SearchAll(temp);
      SortedIsDistinct(sols);
      forall a | true ensures Sat(temp, a) <==> Sat(model, a) && (filter.Some? ==> Selects(filter.value, a)) {
        FilteredSat(model, filter, a);
      }
      assert forall i :: 0 <= i < |sols| ==> InDomain(sols[i]);
      var printer := new SolutionPrinter(display);
      var k := 0;
      while k < |sols|
        invariant 0 <= k <= |sols|
        invariant printer.display == display
        invariant printer.count == k
        invariant printer.output == RenderAll(sols[..k], display)
      {
        assert sols[..k + 1][..k] == sols[..k];
        printer.OnSolution(sols[k]);
        k := k + 1;
      }
      assert sols[..k] == sols;
      count := printer.SolutionCount();
      output := printer.output;
    }
  }

  /** Tag differences hide conflicts: the dialog's `must_select` of Salak for
      Cathy is not reported against the default that forbids it, because the
      item check compares tags exactly. */
  lemma DialogMustSelectMissesDefault()
    ensures Detect(Candidate(MustSelectReq(Cathy, "", FruitShop, [Salak])), StartupRecords()) == []
  {
    StartupShape();
    MustSelectMisses(StartupRecords());
  }

  lemma MustSelectMisses(cs: seq<Record>)
    requires StartupShaped(cs)
    ensures Detect(Candidate(MustSelectReq(Cathy, "", FruitShop, [Salak])), cs) == []
  {
    var c := Candidate(MustSelectReq(Cathy, "", FruitShop, [Salak]));
    assert c.kind == MustSelectSpecificItems;
    DetectEmpty(c, cs);
  }

  /** The dialog's same-selection of Adam and Cathy duplicates a default, yet
      is not reported: the duplicate test compares tags exactly. */
  lemma DialogSameSelectionMissesDuplicate()
    ensures Detect(Candidate(SameReq(Adam, "", FruitShop, Cathy)), StartupRecords()) == []
  {
    StartupShape();
    SameSelectionMisses(StartupRecords());
  }

  lemma SameSelectionMisses(cs: seq<Record>)
    requires StartupShaped(cs)
    ensures Detect(Candidate(SameReq(Adam, "", FruitShop, Cathy)), cs) == []
  {
    var c := Candidate(SameReq(Adam, "", FruitShop, Cathy));
    assert c.kind == SameSelectionFromSpecificShop;
    DetectEmpty(c, cs);
  }

  /** The dialog's different-selection of Cathy and Adam is reported as the
      direct opposite of the default same-selection, in either order of the
      two people, carrying the default flag. */
  lemma DialogDifferentSelectionOpposesDefault()
    ensures var cs := StartupRecords();
            Detect(Candidate(DifferentReq(Cathy, "", FruitShop, Adam)), cs) ==
            [Report(cs[2], "Direct opposite of: " + cs[2].description, Opposite, Some(true))]
  {
    StartupShape();
    DifferentSelectionOpposes(StartupRecords());
  }

  lemma DifferentSelectionOpposes(cs: seq<Record>)
    requires StartupShaped(cs)
    ensures Detect(Candidate(DifferentReq(Cathy, "", FruitShop, Adam)), cs) ==
            [Report(cs[2], "Direct opposite of: " + cs[2].description, Opposite, Some(true))]
  {
    var c := Candidate(DifferentReq(Cathy, "", FruitShop, Adam));
    assert c.kind == DifferentSelectionFromSpecificShop;
    forall j | 0 <= j < |cs| && j != 2 ensures ReportsFor(c, cs[j]) == [] {
      if j == 1 {
        assert !SamePeople(c, cs[1]);
      }
    }
    assert ReportsFor(c, cs[2]) == [] + RelationalReports(c, cs[2]);
    DetectOnly(c, cs, 2);
  }

  /** Adam and Cathy on Papaya, Bobby on Quenepa, Dean on Rambutan, Bobby's
      dish Pasta. */
  function PastaDay(): (a: Assignment)
    ensures InDomain(a) && a.y == Code(DishShop, Pasta).value
  {
    Assignment([0, 1, 0, 2], 0)
  }

  /** Bobby's "cannot select Pasta" added to the start-up state meets no
      conflict, is stored, and holds in the live model, which keeps its
      incremental posts; the rebuilt model has lost it: `PastaDay` is a
      solution of the rebuild but not of the live model. */
  lemma DishRestrictionLostAtStartup(req: Request, confirm: Record -> bool)
    requires req.CannotReq? && req.p1 == Bobby && req.shop == DishShop && req.items == [Pasta]
    ensures AddSpec(State(StartupRecords(), InitialModel()), req, confirm) ==
            (Added, State(StartupRecords() + [Candidate(req)], InitialModel() + Posts(req).value))
    ensures !Sat(InitialModel() + Posts(req).value, PastaDay())
    ensures Sat(Compiled(StartupRecords() + [Candidate(req)]), PastaDay())
  {
    StartupShape();
    DishRestrictionLost(StartupRecords(), req, confirm);
  }

  lemma DishRestrictionLost(cs: seq<Record>, req: Request, confirm: Record -> bool)
    requires StartupShaped(cs)
    requires req.CannotReq? && req.p1 == Bobby && req.shop == DishShop && req.items == [Pasta]
    ensures AddSpec(State(cs, InitialModel()), req, confirm) ==
            (Added, State(cs + [Candidate(req)], InitialModel() + Posts(req).value))
    ensures !Sat(InitialModel() + Posts(req).value, PastaDay())
    ensures Sat(Compiled(cs + [Candidate(req)]), PastaDay())
  {
    DishRuleNoConflict(cs, req);
    AddSpecNoConflict(State(cs, InitialModel()), req, confirm);
    DishPostsExclude(req);
    DishRecordKeepsRebuild(cs, req);
  }

  lemma DishRuleNoConflict(cs: seq<Record>, req: Request)
    requires StartupShaped(cs)
    requires req.CannotReq? && req.p1 == Bobby && req.shop == DishShop && req.items == [Pasta]
    ensures Detect(Candidate(req), cs) == []
  {
    var c := Candidate(req);
    assert c.kind == CannotSelectSpecificItems;
    DetectEmpty(c, cs);
  }

  lemma DishPostsExclude(req: Request)
    requires req.CannotReq? && req.p1 == Bobby && req.shop == DishShop && req.items == [Pasta]
    ensures !Sat(InitialModel() + Posts(req).value, PastaDay())
  {
    var a := PastaDay();
    var ps := Posts(req).value;
    DishItemRuleLostOnRebuild(req, a);
    assert Codes(DishShop, [Pasta]) == [0];
    SatConcat(InitialModel(), ps, a);
  }

  lemma DishRecordKeepsRebuild(cs: seq<Record>, req: Request)
    requires StartupShaped(cs)
    requires req.CannotReq? && req.p1 == Bobby && req.shop == DishShop && req.items == [Pasta]
    ensures Sat(Compiled(cs + [Candidate(req)]), PastaDay())
  {
    var a := PastaDay();
    assert Compiled(cs + [Candidate(req)]) == Compiled(cs) by {
      DishItemRuleLostOnRebuild(req, a);
      CompiledSnoc(cs, Candidate(req));
      assert Compiled(cs) + [] == Compiled(cs);
    }
    assert Sat(Compiled(cs), a) by {
      StartupShapedMatches(cs, a);
      DefaultScenario(a);
    }
  }
}
