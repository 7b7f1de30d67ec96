/** `check_constraint_conflicts`: compares a candidate record with every
    existing record and lists, in the order of the existing records, the ones
    it opposes or duplicates. It reads both inputs and changes neither. */
module Conflicts {
  import opened Domain
  import opened Rules

  datatype Flag = Opposite | Duplicate

  /** One conflict dictionary: the existing record it matched, the message,
      `is_opposite` or `is_duplicate`, and the `is_default` entry that only
      the relational-opposite report carries. */
  datatype Report = Report(constraint: Record, reason: string, flag: Flag, isDefault: Option<bool>)

  /** `type in ['must_order', 'must_not_order']`: an exact comparison. */
  predicate IsOrderingKind(k: Kind)
  {
    k == MustOrder || k == MustNotOrder
  }

  /** The ordering check: both records are ordering rules on the same person and shop. */
  function OrderingReports(c: Record, e: Record): seq<Report>
  {
    if IsOrderingKind(c.kind) && IsOrderingKind(e.kind) && c.person1 == e.person1 && c.shop == e.shop then
      if c.kind != e.kind then
        [Report(e, "Conflicts with: " + e.description + " (opposite order requirement)", Opposite, None)]
      else
        [Report(e, "Duplicate constraint: " + e.description, Duplicate, None)]
    else
      []
  }

  /** Both dictionaries have a `person1` and a `person2` key. */
  predicate BothRelational(c: Record, e: Record)
  {
    c.person2.Some? && e.person2.Some?
  }

  /** The two pairs of people are the same pair, in either order. */
  predicate SamePeople(c: Record, e: Record)
    requires BothRelational(c, e)
  {
    || (c.person1 == e.person1 && c.person2.value == e.person2.value)
    || (c.person1 == e.person2.value && c.person2.value == e.person1)
    || (c.person2.value == e.person1 && c.person1 == e.person2.value)
  }

  /** The same/different test on tags, which is a substring test. */
  predicate OppositeKinds(ck: Kind, ek: Kind)
  {
    || (Mentions(ck, SameSel) && Mentions(ek, DifferentSel))
    || (Mentions(ck, DifferentSel) && Mentions(ek, SameSel))
  }

  /** The relational check, for two records that both name two people. */
  function RelationalReports(c: Record, e: Record): seq<Report>
    requires BothRelational(c, e)
  {
    if SamePeople(c, e) && c.shop == e.shop then
      if OppositeKinds(c.kind, e.kind) then
        [Report(e, "Direct opposite of: " + e.description, Opposite, Some(e.isDefault))]
      else if c.kind == e.kind then
        [Report(e, "Duplicate constraint: " + e.description, Duplicate, None)]
      else
        []
    else
      []
  }

  /** `set(a) & set(b)` is non-empty. */
  predicate Intersects(a: seq<Item>, b: seq<Item>)
  {
    exists x :: x in a && x in b
  }

  /** The item check: an exact `must_select` candidate against an exact
      `cannot_select` record of the same person and shop sharing an item. */
  function ItemReports(c: Record, e: Record): seq<Report>
  {
    if && c.items.Some? && e.items.Some? && c.person1 == e.person1 && c.shop == e.shop
       && c.kind == MustSelect && e.kind == CannotSelect && Intersects(c.items.value, e.items.value)
    then
      [Report(e, "Conflicts with: " + e.description + " (opposite item selection)", Opposite, None)]
    else
      []
  }

  /** What one iteration of the loop appends for one existing record: the
      ordering check, then either the relational check or, when a `person2`
      is missing on either side, the item check. */
  function ReportsFor(c: Record, e: Record): (rs: seq<Report>)
    ensures |rs| <= 2
    ensures forall i :: 0 <= i < |rs| ==> rs[i].constraint == e
  {
    OrderingReports(c, e) + (if BothRelational(c, e) then RelationalReports(c, e) else ItemReports(c, e))
  }

  /** `check_constraint_conflicts(c, es)`. */
  function Detect(c: Record, es: seq<Record>): (rs: seq<Report>)
    ensures |rs| <= 2 * |es|
    ensures forall i :: 0 <= i < |rs| ==> rs[i].constraint in es
  {
    if es == [] then [] else ReportsFor(c, es[0]) + Detect(c, es[1..])
  }

  /** Reports follow the order of the existing list: the reports for a
      concatenation are the reports for each part, in order. */
  lemma {:induction false} DetectConcat(c: Record, a: seq<Record>, b: seq<Record>)
    ensures Detect(c, a + b) == Detect(c, a) + Detect(c, b)
  {
    if a == [] {
      assert a + b == b;
    } else {
      assert (a + b)[1..] == a[1..] + b;
      DetectConcat(c, a[1..], b);
    }
  }

  /** A record is reported only where some existing record at that position
      produces it: the reports of `es` are the reports of its elements one
      after the other. */
  lemma DetectSingle(c: Record, e: Record)
    ensures Detect(c, [e]) == ReportsFor(c, e)
  {
    assert [e][1..] == [];
  }

  /** No report at all exactly when no existing record, taken alone, gives one. */
  lemma {:induction false} DetectEmpty(c: Record, es: seq<Record>)
    ensures Detect(c, es) == [] <==> forall j :: 0 <= j < |es| ==> ReportsFor(c, es[j]) == []
  {
    if es != [] {
      DetectEmpty(c, es[1..]);
      assert forall j :: 1 <= j < |es| ==> es[j] == es[1..][j - 1];
    }
  }

  /** When a single existing record gives reports, those are all the reports. */
  lemma {:induction false} DetectOnly(c: Record, es: seq<Record>, i: nat)
    requires i < |es|
    requires forall j :: 0 <= j < |es| && j != i ==> ReportsFor(c, es[j]) == []
    ensures Detect(c, es) == ReportsFor(c, es[i])
  {
    var tail := es[1..];
    assert forall j :: 0 <= j < |tail| ==> tail[j] == es[j + 1];
    if i == 0 {
      DetectEmpty(c, tail);
      assert Detect(c, es) == ReportsFor(c, es[0]) + [];
    } else {
      DetectOnly(c, tail, i - 1);
      assert Detect(c, es) == [] + Detect(c, tail);
    }
  }

  /** The ordering check: two ordering rules on the same person and shop give
      exactly one report, an opposite when the tags differ and a duplicate
      when they are equal; otherwise it reports nothing. */
  lemma OrderingConflict(c: Record, e: Record)
    requires IsOrderingKind(c.kind) && IsOrderingKind(e.kind)
    ensures |OrderingReports(c, e)| == 1 <==> c.person1 == e.person1 && c.shop == e.shop
    ensures |OrderingReports(c, e)| != 1 ==> OrderingReports(c, e) == []
    ensures |OrderingReports(c, e)| == 1 ==>
              && OrderingReports(c, e)[0].constraint == e
              && (OrderingReports(c, e)[0].flag == Opposite <==> Tag(c.kind) != Tag(e.kind))
  {
    TagInjective(c.kind, e.kind);
  }

  /** Only two ordering rules can meet in the ordering check. */
  lemma OrderingNeedsTwoOrderingKinds(c: Record, e: Record)
    requires !IsOrderingKind(c.kind) || !IsOrderingKind(e.kind)
    ensures ReportsFor(c, e) == (if BothRelational(c, e) then RelationalReports(c, e) else ItemReports(c, e))
  {
  }

  /** The relational check for the same unordered pair of people in the same
      shop: a same/different pair of tags is an opposite that carries the
      existing record's default flag, equal tags are a duplicate, anything
      else is no report. A pair of people that differs, or another shop,
      gives nothing. */
  lemma RelationalConflict(c: Record, e: Record)
    requires BothRelational(c, e) && !IsOrderingKind(c.kind)
    ensures !(SamePeople(c, e) && c.shop == e.shop) ==> ReportsFor(c, e) == []
    ensures SamePeople(c, e) && c.shop == e.shop && OppositeKinds(c.kind, e.kind) ==>
              ReportsFor(c, e) == [Report(e, "Direct opposite of: " + e.description, Opposite, Some(e.isDefault))]
    ensures SamePeople(c, e) && c.shop == e.shop && Tag(c.kind) == Tag(e.kind) ==>
              ReportsFor(c, e) == [Report(e, "Duplicate constraint: " + e.description, Duplicate, None)]
    ensures !OppositeKinds(c.kind, e.kind) && Tag(c.kind) != Tag(e.kind) ==> ReportsFor(c, e) == []
  {
    TagInjective(c.kind, e.kind);
  }

  /** The candidate with its two people swapped. */
  function Swap(c: Record): (s: Record)
    requires c.person2.Some?
    ensures s.person2.Some? && s.person1 == c.person2.value && s.person2.value == c.person1
    ensures s.kind == c.kind && s.shop == c.shop && s.items == c.items
  {
    c.(person1 := c.person2.value, person2 := Some(c.person1))
  }

  lemma ReportsForSwap(c: Record, e: Record)
    requires c.person2.Some? && !IsOrderingKind(c.kind) && c.kind != MustSelect
    ensures ReportsFor(Swap(c), e) == ReportsFor(c, e)
  {
    if BothRelational(c, e) {
      assert SamePeople(Swap(c), e) == SamePeople(c, e);
    }
  }

  /** People match as an unordered pair: swapping the candidate's two people
      changes no report, for any existing list (the ordering and item checks,
      which compare `person1` alone, never fire for such a candidate). */
  lemma {:induction false} DetectSwapSymmetric(c: Record, es: seq<Record>)
    requires c.person2.Some? && !IsOrderingKind(c.kind) && c.kind != MustSelect
    ensures Detect(Swap(c), es) == Detect(c, es)
  {
    if es != [] {
      ReportsForSwap(c, es[0]);
      DetectSwapSymmetric(c, es[1..]);
    }
  }

  /** The item check, reached when either side lacks `person2`: an opposite
      exactly when the candidate's tag is `must_select`, the existing tag is
      `cannot_select`, person and shop agree and the item lists share an
      item; disjoint lists give nothing. */
  lemma ItemConflict(c: Record, e: Record)
    requires !BothRelational(c, e) && !IsOrderingKind(c.kind)
    ensures ReportsFor(c, e) != [] <==>
              && c.kind == MustSelect && e.kind == CannotSelect
              && c.items.Some? && e.items.Some? && c.person1 == e.person1 && c.shop == e.shop
              && Intersects(c.items.value, e.items.value)
    ensures ReportsFor(c, e) != [] ==>
              ReportsFor(c, e) == [Report(e, "Conflicts with: " + e.description + " (opposite item selection)", Opposite, None)]
  {
  }

  /** The item check hides behind the relational one: a `must_select`
      candidate that also names a second person is never reported against a
      `cannot_select` record that names one, however the items overlap. */
  lemma ItemCheckShadowed(c: Record, e: Record)
    requires BothRelational(c, e) && c.kind == MustSelect && e.kind == CannotSelect
    ensures Detect(c, [e]) == []
  {
    DetectSingle(c, e);
  }
}
