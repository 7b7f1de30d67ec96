/** `rebuild_model`: compiles the ordered store into a fresh model. It posts
    Bobby's exactly-one dish rule, then walks the records, skipping a record
    whose deduplication key was already applied, and translates the others
    inside a `try`: a record whose translation raises keeps whatever it
    posted before the raising lookup, is not marked as applied, and the loop
    goes on. */
module Builder {
  import opened Domain
  import opened Rules
  import opened Primitives
  import opened Lists

  /** The result of the `try` block for one record: the posts it made, and
      whether it ran to `applied_constraints.add` (`Applied`) or raised
      (`Failed`). */
  datatype Translation = Applied(posts: seq<Prim>) | Failed(posts: seq<Prim>)

  /** The values of `shops[s]` in key order: the code of every item of the
      shop, which is its position in the catalogue. */
  function AllCodes(s: Shop): (cs: seq<int>)
    ensures |cs| == |Catalog(s)|
    ensures forall i :: 0 <= i < |cs| ==> cs[i] == i
  {
    CatalogCodes(s);
    Codes(s, Catalog(s))
  }

  /** A value is the code of some item of the shop exactly when it lies
      between 0 and the catalogue size. */
  lemma AllCodesContain(s: Shop, v: int)
    ensures v in AllCodes(s) <==> 0 <= v < |Catalog(s)|
  {
    if 0 <= v < |Catalog(s)| {
      assert AllCodes(s)[v] == v;
    }
  }

  /** Bobby's dish rule posted at the top of every rebuild: `y[0]` is Pasta or Risotto. */
  function DishBase(): seq<Prim>
  {
    [ExactlyOne(Dish, [Code(DishShop, Pasta).value, Code(DishShop, Risotto).value])]
  }

  /** How many leading items of the list can be looked up in the shop before
      the first lookup that raises. */
  function ValidPrefix(s: Shop, items: seq<Item>): (n: nat)
    ensures n <= |items|
    ensures AllInCatalog(s, items[..n])
    ensures n < |items| ==> items[n] !in Catalog(s)
  {
    if items == [] || items[0] !in Catalog(s) then 0
    else
      var n := 1 + ValidPrefix(s, items[1..]);
      assert items[..n] == [items[0]] + items[1..][..n - 1];
      n
  }

  /** `cannot_select` on the Fruit Shop: `x[p] != code` for each item, up to
      the first item that is not in the shop. */
  function ExcludeItems(p: Person, items: seq<Item>): Translation
  {
    var n := ValidPrefix(FruitShop, items);
    var posts := seq(n, j requires 0 <= j < n => NeCode(Fruit(p), Code(FruitShop, items[j]).value));
    if n == |items| then Applied(posts) else Failed(posts)
  }

  /** `must_select` on the Fruit Shop: one indicator per item and their sum
      equal to one; when an item is not in the shop, only the indicators
      before it were posted, and no sum. */
  function SelectItems(p: Person, items: seq<Item>): Translation
  {
    var n := ValidPrefix(FruitShop, items);
    if n == |items| then Applied([ExactlyOne(Fruit(p), Codes(FruitShop, items))])
    else Failed(seq(n, j requires 0 <= j < n => Guarded(Fruit(p), Code(FruitShop, items[j]).value)))
  }

  /** The body of the `try` block of `rebuild_model` for one record. A
      missing `items` or `person2` key raises before anything is posted. */
  function Translate(r: Record): Translation
  {
    match Dispatch(r.kind)
    case CannotSel =>
      if r.shop != FruitShop then Applied([])
      else if r.items.None? then Failed([])
      else ExcludeItems(r.person1, r.items.value)
    case SameSel =>
      if r.shop != FruitShop then Applied([])
      else if r.person2.None? then Failed([])
      else Applied([EqVar(Fruit(r.person1), Fruit(r.person2.value))])
    case DifferentSel =>
      if r.shop != FruitShop then Applied([])
      else if r.person2.None? then Failed([])
      else Applied([NeVar(Fruit(r.person1), Fruit(r.person2.value))])
    case MustOrd =>
      if r.shop == FruitShop then Applied([ExactlyOne(Fruit(r.person1), AllCodes(FruitShop))])
      else if r.person1 == Bobby then Applied([ExactlyOne(Dish, AllCodes(DishShop))])
      else Applied([])
    case MustNotOrd =>
      if r.shop == FruitShop then Applied(seq(|Catalog(FruitShop)|, c => NeCode(Fruit(r.person1), c)))
      else Applied([])
    case MustSel =>
      if r.shop != FruitShop then Applied([])
      else if r.items.None? then Failed([])
      else SelectItems(r.person1, r.items.value)
  }

  /** The loop of `rebuild_model` from a given `applied_constraints` set on. */
  function Fold(applied: set<Key>, cs: seq<Record>): seq<Prim>
    decreases |cs|
  {
    if cs == [] then []
    else if KeyOf(cs[0]) in applied then Fold(applied, cs[1..])
    else
      match Translate(cs[0])
      case Applied(ps) => ps + Fold(applied + {KeyOf(cs[0])}, cs[1..])
      case Failed(ps) => ps + Fold(applied, cs[1..])
  }

  /** The model `rebuild_model(cs)` returns. */
  function Compiled(cs: seq<Record>): seq<Prim>
  {
    DishBase() + Fold({}, cs)
  }

  /** The keys that end up in `applied_constraints`: those of the records
      whose translation completes. */
  function AppliedKeys(cs: seq<Record>): set<Key>
  {
    if cs == [] then {}
    else (if Translate(cs[0]).Applied? then {KeyOf(cs[0])} else {}) + AppliedKeys(cs[1..])
  }

  /** A key is applied exactly when some record with that key translates completely. */
  lemma {:induction false} AppliedKeysChar(cs: seq<Record>, k: Key)
    ensures k in AppliedKeys(cs) <==> exists i :: 0 <= i < |cs| && KeyOf(cs[i]) == k && Translate(cs[i]).Applied?
  {
    if cs != [] {
      AppliedKeysChar(cs[1..], k);
      if k in AppliedKeys(cs[1..]) {
        var i :| 0 <= i < |cs[1..]| && KeyOf(cs[1..][i]) == k && Translate(cs[1..][i]).Applied?;
        assert cs[i + 1] == cs[1..][i];
      }
      if exists i :: 0 <= i < |cs| && KeyOf(cs[i]) == k && Translate(cs[i]).Applied? {
        var i :| 0 <= i < |cs| && KeyOf(cs[i]) == k && Translate(cs[i]).Applied?;
        if i > 0 { assert cs[1..][i - 1] == cs[i]; }
      }
    }
  }

  /** The method itself: a loop over the records that keeps the applied-key
      set and appends each record's posts. */
  method RebuildModel(cs: seq<Record>) returns (model: seq<Prim>)
    ensures model == Compiled(cs)
  {
    model := DishBase();
    var applied: set<Key> := {};
    var i := 0;
    while i < |cs|
      invariant 0 <= i <= |cs|
      invariant model + Fold(applied, cs[i..]) == Compiled(cs)
    {
      var key := KeyOf(cs[i]);
      assert cs[i..][1..] == cs[i + 1..];
      if key !in applied {
        var t := Translate(cs[i]);
        model := model + t.posts;
        if t.Applied? {
          applied := applied + {key};
        }
      }
      i := i + 1;
    }
    assert cs[i..] == [];
  }

  lemma {:induction false} AppliedKeysSnoc(cs: seq<Record>, r: Record)
    ensures AppliedKeys(cs + [r]) == AppliedKeys(cs) + (if Translate(r).Applied? then {KeyOf(r)} else {})
  {
    if cs == [] {
      assert [] + [r] == [r];
      assert [r][1..] == [];
    } else {
      TailAppended(cs, r);
      AppliedKeysSnoc(cs[1..], r);
    }
  }

  /** Appending a record to the walk: it adds its posts exactly when its key
      is neither in the starting set nor applied by an earlier record. */
  lemma {:induction false} FoldSnoc(applied: set<Key>, cs: seq<Record>, r: Record)
    ensures Fold(applied, cs + [r]) ==
            Fold(applied, cs) + (if KeyOf(r) in applied + AppliedKeys(cs) then [] else Translate(r).posts)
    decreases |cs|
  {
    if cs == [] {
      assert [] + [r] == [r];
      assert [r][1..] == [];
    } else {
      var q := cs[0];
      TailAppended(cs, r);
      var mark := if Translate(q).Applied? then {KeyOf(q)} else {};
      assert AppliedKeys(cs) == mark + AppliedKeys(cs[1..]);
      if KeyOf(q) in applied {
        FoldSnoc(applied, cs[1..], r);
        assert applied + AppliedKeys(cs) == applied + AppliedKeys(cs[1..]);
      } else if Translate(q).Applied? {
        FoldSnoc(applied + {KeyOf(q)}, cs[1..], r);
        assert applied + AppliedKeys(cs) == (applied + {KeyOf(q)}) + AppliedKeys(cs[1..]);
      } else {
        FoldSnoc(applied, cs[1..], r);
        assert applied + AppliedKeys(cs) == applied + AppliedKeys(cs[1..]);
      }
    }
  }

  /** The record-by-record reading of `rebuild_model`: rebuilding a store
      with one more record at the end posts that record's translation (even a
      failed, partial one) unless a record with the same key was already
      applied successfully, and nothing otherwise. */
  lemma CompiledSnoc(cs: seq<Record>, r: Record)
    ensures Compiled(cs + [r]) ==
            Compiled(cs) + (if KeyOf(r) in AppliedKeys(cs) then [] else Translate(r).posts)
  {
    FoldSnoc({}, cs, r);
  }

  /** A record whose translation raised does not block a later record with
      the same key: both sets of posts are in the model. */
  lemma FailedRecordDoesNotBlock(cs: seq<Record>, bad: Record, good: Record)
    requires KeyOf(bad) == KeyOf(good) && KeyOf(good) !in AppliedKeys(cs)
    requires Translate(bad).Failed? && Translate(good).Applied?
    ensures Compiled(cs + [bad, good]) == Compiled(cs) + Translate(bad).posts + Translate(good).posts
  {
    CompiledSnoc(cs, bad);
    AppliedKeysSnoc(cs, bad);
    assert cs + [bad, good] == (cs + [bad]) + [good];
    CompiledSnoc(cs + [bad], good);
  }

  lemma {:induction false} FoldSkip(applied: set<Key>, pre: seq<Record>, r: Record, post: seq<Record>)
    requires KeyOf(r) in applied + AppliedKeys(pre)
    ensures Fold(applied, pre + [r] + post) == Fold(applied, pre + post)
    decreases |pre|
  {
    if pre == [] {
      assert pre + [r] + post == [r] + post;
      assert ([r] + post)[1..] == post;
      assert pre + post == post;
    } else {
      var q := pre[0];
      assert (pre + [r] + post)[0] == q && (pre + post)[0] == q;
      assert (pre + [r] + post)[1..] == pre[1..] + [r] + post;
      assert (pre + post)[1..] == pre[1..] + post;
      if KeyOf(q) in applied {
        FoldSkip(applied, pre[1..], r, post);
      } else if Translate(q).Applied? {
        FoldSkip(applied + {KeyOf(q)}, pre[1..], r, post);
      } else {
        FoldSkip(applied, pre[1..], r, post);
      }
    }
  }

  /** First successful occurrence wins: a later record whose key was applied
      by an earlier record adds nothing, so removing it leaves the rebuilt
      model unchanged. */
  lemma LaterDuplicateAddsNothing(cs: seq<Record>, i: nat, j: nat)
    requires i < j < |cs|
    requires KeyOf(cs[i]) == KeyOf(cs[j]) && Translate(cs[i]).Applied?
    ensures Compiled(cs) == Compiled(cs[..j] + cs[j + 1..])
  {
    assert cs[..j][i] == cs[i];
    AppliedKeysChar(cs[..j], KeyOf(cs[j]));
    assert cs == cs[..j] + [cs[j]] + cs[j + 1..];
    FoldSkip({}, cs[..j], cs[j], cs[j + 1..]);
  }

  /** The record at position `i` is translated by the rebuild: no earlier
      record with its key was applied. */
  predicate Contributes(cs: seq<Record>, i: nat)
    requires i < |cs|
  {
    KeyOf(cs[i]) !in AppliedKeys(cs[..i])
  }

  /** What a rebuilt model requires of an assignment: Bobby's dish is Pasta
      or Risotto, and every record the loop translated holds (for a failed
      record, what it posted before raising). */
  lemma {:induction false} CompiledSat(cs: seq<Record>, a: Assignment)
    ensures Sat(Compiled(cs), a) <==>
            && (a.y == 0 || a.y == 1)
            && forall i :: 0 <= i < |cs| && Contributes(cs, i) ==> Sat(Translate(cs[i]).posts, a)
  {
    if cs == [] {
      assert Compiled(cs) == DishBase();
      assert Sat(DishBase(), a) <==> a.y == 0 || a.y == 1 by {
        assert DishBase()[0] == ExactlyOne(Dish, [0, 1]);
      }
    } else {
      var p := cs[..|cs| - 1];
      var r := cs[|cs| - 1];
      assert cs == p + [r];
      CompiledSat(p, a);
      CompiledSnoc(p, r);
      SatConcat(Compiled(p), if KeyOf(r) in AppliedKeys(p) then [] else Translate(r).posts, a);
      assert forall i :: 0 <= i < |p| ==> cs[i] == p[i] && cs[..i] == p[..i];
      if KeyOf(r) in AppliedKeys(p) {
        assert !Contributes(cs, |p|);
      } else {
        assert Contributes(cs, |p|);
      }
    }
  }

  /** A key applied by the rebuild was applied by a record that the loop
      translated. */
  lemma {:induction false} FirstApplied(cs: seq<Record>, k: Key)
    requires k in AppliedKeys(cs)
    ensures exists j :: 0 <= j < |cs| && KeyOf(cs[j]) == k && Translate(cs[j]).Applied? && Contributes(cs, j)
  {
    var p := cs[..|cs| - 1];
    var r := cs[|cs| - 1];
    assert cs == p + [r];
    AppliedKeysSnoc(p, r);
    if k in AppliedKeys(p) {
      FirstApplied(p, k);
      var j :| 0 <= j < |p| && KeyOf(p[j]) == k && Translate(p[j]).Applied? && Contributes(p, j);
      assert cs[j] == p[j] && cs[..j] == p[..j];
    } else {
      assert Contributes(cs, |p|);
    }
  }

  /** The rule each record stands for, stated on the assignment without the
      primitive encoding; it is what the rebuild enforces for a record whose
      translation completes. Only the Fruit Shop and Bobby's dish ordering
      constrain anything. */
  predicate Meaning(r: Record, a: Assignment)
  {
    var x := a.x[Index(r.person1)];
    match Dispatch(r.kind)
    case CannotSel =>
      r.shop == FruitShop && r.items.Some? ==>
        forall j :: 0 <= j < |r.items.value| ==> Code(FruitShop, r.items.value[j]) != Some(x)
    case SameSel =>
      r.shop == FruitShop && r.person2.Some? ==> x == a.x[Index(r.person2.value)]
    case DifferentSel =>
      r.shop == FruitShop && r.person2.Some? ==> x != a.x[Index(r.person2.value)]
    case MustOrd =>
      && (r.shop == FruitShop ==> 0 <= x < |Catalog(FruitShop)|)
      && (r.shop == DishShop && r.person1 == Bobby ==> 0 <= a.y < |Catalog(DishShop)|)
    case MustNotOrd =>
      r.shop == FruitShop ==> !(0 <= x < |Catalog(FruitShop)|)
    case MustSel =>
      r.shop == FruitShop && r.items.Some? ==>
        exists j :: 0 <= j < |r.items.value| && Code(FruitShop, r.items.value[j]) == Some(x)
  }

  /** The posts of a completed translation hold exactly when the record's
      rule holds. */
  lemma TranslateMeaning(r: Record, a: Assignment)
    requires Translate(r).Applied?
    ensures Sat(Translate(r).posts, a) <==> Meaning(r, a)
  {
    var ps := Translate(r).posts;
    var x := a.x[Index(r.person1)];
    match Dispatch(r.kind)
    case CannotSel =>
      if r.shop == FruitShop {
        ExcludeItemsMeaning(r.person1, r.items.value, a);
      }
    case SameSel =>
      if r.shop == FruitShop {
        assert Holds(ps[0], a) <==> x == a.x[Index(r.person2.value)];
      }
    case DifferentSel =>
      if r.shop == FruitShop {
        assert Holds(ps[0], a) <==> x != a.x[Index(r.person2.value)];
      }
    case MustOrd =>
      if r.shop == FruitShop {
        assert Holds(ps[0], a) <==> x in AllCodes(FruitShop);
        AllCodesContain(FruitShop, x);
      } else if r.person1 == Bobby {
        assert Holds(ps[0], a) <==> a.y in AllCodes(DishShop);
        AllCodesContain(DishShop, a.y);
      }
    case MustNotOrd =>
      if r.shop == FruitShop && 0 <= x < |Catalog(FruitShop)| {
        assert !Holds(ps[x], a);
      }
    case MustSel =>
      if r.shop == FruitShop {
        SelectItemsMeaning(r.person1, r.items.value, a);
      }
  }

  /** A completed `cannot_select` translation holds exactly when the person's
      fruit is none of the listed items. */
  lemma ExcludeItemsMeaning(p: Person, items: seq<Item>, a: Assignment)
    requires ExcludeItems(p, items).Applied?
    ensures Sat(ExcludeItems(p, items).posts, a) <==>
            forall j :: 0 <= j < |items| ==> Code(FruitShop, items[j]) != Some(a.x[Index(p)])
  {
    var ps := ExcludeItems(p, items).posts;
    assert ValidPrefix(FruitShop, items) == |items|;
    if Sat(ps, a) {
      forall j | 0 <= j < |items| ensures Code(FruitShop, items[j]) != Some(a.x[Index(p)]) {
        assert Holds(ps[j], a);
      }
    }
  }

  /** A completed `must_select` translation holds exactly when the person's
      fruit is one of the listed items. */
  lemma SelectItemsMeaning(p: Person, items: seq<Item>, a: Assignment)
    requires SelectItems(p, items).Applied?
    ensures Sat(SelectItems(p, items).posts, a) <==>
            exists j :: 0 <= j < |items| && Code(FruitShop, items[j]) == Some(a.x[Index(p)])
  {
    var ps := SelectItems(p, items).posts;
    var x := a.x[Index(p)];
    assert ValidPrefix(FruitShop, items) == |items|;
    var cs := Codes(FruitShop, items);
    assert Holds(ps[0], a) <==> x in cs;
    if x in cs {
      var j :| 0 <= j < |cs| && cs[j] == x;
      assert Code(FruitShop, items[j]) == Some(x);
    }
  }

  /** Records on the Dish Shop post nothing, except Bobby's `must_order`. */
  lemma DishRecordsPostNothing(r: Record)
    requires r.shop == DishShop && !(Dispatch(r.kind) == MustOrd && r.person1 == Bobby)
    ensures Translate(r) == Applied([])
  {
  }

  /** A `must_not_order` record on the Fruit Shop anywhere in the store leaves
      the rebuilt model without a single solution. */
  lemma MustNotOrderEmptiesModel(cs: seq<Record>, i: nat, a: Assignment)
    requires i < |cs| && Dispatch(cs[i].kind) == MustNotOrd && cs[i].shop == FruitShop
    requires InDomain(a)
    ensures !Sat(Compiled(cs), a)
  {
    var k := KeyOf(cs[i]);
    assert Translate(cs[i]).Applied?;
    AppliedKeysChar(cs, k);
    FirstApplied(cs, k);
    var j :| 0 <= j < |cs| && KeyOf(cs[j]) == k && Translate(cs[j]).Applied? && Contributes(cs, j);
    assert cs[j].kind == cs[i].kind && cs[j].shop == FruitShop;
    TranslateMeaning(cs[j], a);
    assert 0 <= a.x[Index(cs[j].person1)] < |Catalog(FruitShop)|;
    CompiledSat(cs, a);
  }

  /** A `must_select` and a `cannot_select` of the same person on the Fruit
      Shop with the same item list, both translated, leave no solution. */
  lemma SelectAndExcludeSameItems(cs: seq<Record>, i: nat, j: nat, a: Assignment)
    requires i < |cs| && j < |cs| && Contributes(cs, i) && Contributes(cs, j)
    requires Dispatch(cs[i].kind) == MustSel && Dispatch(cs[j].kind) == CannotSel
    requires cs[i].shop == FruitShop && cs[j].shop == FruitShop && cs[i].person1 == cs[j].person1
    requires cs[i].items.Some? && cs[i].items == cs[j].items
    requires Translate(cs[i]).Applied?
    ensures !Sat(Compiled(cs), a)
  {
    assert Translate(cs[j]).Applied? by {
      assert ValidPrefix(FruitShop, cs[i].items.value) == |cs[i].items.value|;
    }
    TranslateMeaning(cs[i], a);
    TranslateMeaning(cs[j], a);
    CompiledSat(cs, a);
  }
}
