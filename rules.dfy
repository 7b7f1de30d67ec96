/** Constraint records as the store keeps them. The `type` of a record is a
    free string: the built-in records carry one of six exact tags, while
    records built from the add-constraint menu carry the menu text lowered
    with spaces turned into underscores. (The dialog's branch that would
    overwrite the two ordering choices with exact tags is never reached:
    both choices contain "from specific shop" and take the first branch.)
    The tag is therefore one of twelve values, and the code tests it in two
    different ways: by substring (`'x' in t`) and by equality (`t == 'x'`). */
module Rules {
  import opened Domain

  /** The twelve tags a stored record can carry. */
  datatype Kind =
    | CannotSelect | MustSelect | MustOrder | MustNotOrder | SameSelection | DifferentSelection
    | SameSelectionFromSpecificShop | DifferentSelectionFromSpecificShop
    | MustOrderFromSpecificShop | MustNotOrderFromSpecificShop
    | CannotSelectSpecificItems | MustSelectSpecificItems

  /** The six rule names that dispatch looks for inside a tag. */
  datatype Base = CannotSel | SameSel | DifferentSel | MustOrd | MustNotOrd | MustSel

  function Tag(k: Kind): string
  {
    match k
    case CannotSelect => "cannot_select"
    case MustSelect => "must_select"
    case MustOrder => "must_order"
    case MustNotOrder => "must_not_order"
    case SameSelection => "same_selection"
    case DifferentSelection => "different_selection"
    case SameSelectionFromSpecificShop => "same_selection" + "_from_specific_shop"
    case DifferentSelectionFromSpecificShop => "different_selection" + "_from_specific_shop"
    case MustOrderFromSpecificShop => "must_order" + "_from_specific_shop"
    case MustNotOrderFromSpecificShop => "must_not_order" + "_from_specific_shop"
    case CannotSelectSpecificItems => "cannot_select" + "_specific_items"
    case MustSelectSpecificItems => "must_select" + "_specific_items"
  }

  function BaseTag(b: Base): string
  {
    match b
    case CannotSel => "cannot_select"
    case SameSel => "same_selection"
    case DifferentSel => "different_selection"
    case MustOrd => "must_order"
    case MustNotOrd => "must_not_order"
    case MustSel => "must_select"
  }

  /** `needle in hay` on Python strings. */
  predicate IsSubstring(needle: string, hay: string)
  {
    exists i :: 0 <= i <= |hay| && OccursAt(needle, hay, i)
  }

  predicate OccursAt(needle: string, hay: string, i: nat)
  {
    i + |needle| <= |hay| && hay[i..i + |needle|] == needle
  }

  /** `BaseTag(b) in Tag(k)`, tabulated over the twelve tags: every tag contains
      exactly the base name it starts with ("must_order" is not a substring
      of "must_not_order"). */
  predicate Mentions(k: Kind, b: Base)
  {
    match b
    case CannotSel => k == CannotSelect || k == CannotSelectSpecificItems
    case SameSel => k == SameSelection || k == SameSelectionFromSpecificShop
    case DifferentSel => k == DifferentSelection || k == DifferentSelectionFromSpecificShop
    case MustOrd => k == MustOrder || k == MustOrderFromSpecificShop
    case MustNotOrd => k == MustNotOrder || k == MustNotOrderFromSpecificShop
    case MustSel => k == MustSelect || k == MustSelectSpecificItems
  }

  /** The table is exactly the substring test on the tag texts: a tag
      contains a base name when the table says so, and only then. */
  lemma MentionsIsSubstring(k: Kind, b: Base)
    ensures Mentions(k, b) <==> IsSubstring(BaseTag(b), Tag(k))
  {
    if Mentions(k, b) {
      MentionedOccurs(k, b);
    } else {
      UnmentionedAbsent(k, b);
    }
  }

  /** Every entry of the table is an occurrence at the front of the tag. */
  lemma MentionedOccurs(k: Kind, b: Base)
    requires Mentions(k, b)
    ensures IsSubstring(BaseTag(b), Tag(k))
  {
    var t := Tag(k);
    var n := |BaseTag(b)|;
    assert n <= |t| && t[..n] == BaseTag(b);
    assert OccursAt(BaseTag(b), t, 0);
  }

  /** At position `i` of `hay`, some character of `needle` differs. */
  predicate Mismatch(needle: string, hay: string, i: nat)
  {
    i + |needle| <= |hay| && exists j :: 0 <= j < |needle| && hay[i + j] != needle[j]
  }

  /** A needle that mismatches at every position is not a substring. */
  lemma NotSubstring(needle: string, hay: string)
    requires forall i :: 0 <= i && i + |needle| <= |hay| ==> Mismatch(needle, hay, i)
    ensures !IsSubstring(needle, hay)
  {
    forall i | 0 <= i <= |hay| ensures !OccursAt(needle, hay, i) {
      if i + |needle| <= |hay| {
        assert Mismatch(needle, hay, i);
        var j :| 0 <= j < |needle| && hay[i + j] != needle[j];
        assert hay[i..i + |needle|][j] == hay[i + j];
      }
    }
  }

  /** The first two letters of a base name. */
  predicate Opens(c: char, d: char)
  {
    (c == 'm' && d == 'u') || (c == 'c' && d == 'a') || (c == 's' && d == 'a') || (c == 'd' && d == 'i')
  }

  lemma BaseOpens(b: Base)
    ensures |BaseTag(b)| >= 6 && Opens(BaseTag(b)[0], BaseTag(b)[1])
  {
  }

  /** The base name a tag starts with. */
  function Lead(k: Kind): Base
  {
    match k
    case CannotSelect | CannotSelectSpecificItems => CannotSel
    case MustSelect | MustSelectSpecificItems => MustSel
    case MustOrder | MustOrderFromSpecificShop => MustOrd
    case MustNotOrder | MustNotOrderFromSpecificShop => MustNotOrd
    case SameSelection | SameSelectionFromSpecificShop => SameSel
    case DifferentSelection | DifferentSelectionFromSpecificShop => DifferentSel
  }

  /** What follows the base name in a tag. */
  function Suffix(k: Kind): string
  {
    match k
    case SameSelectionFromSpecificShop | DifferentSelectionFromSpecificShop
       | MustOrderFromSpecificShop | MustNotOrderFromSpecificShop => "_from_specific_shop"
    case CannotSelectSpecificItems | MustSelectSpecificItems => "_specific_items"
    case _ => ""
  }

  lemma TagSplit(k: Kind)
    ensures Tag(k) == BaseTag(Lead(k)) + Suffix(k)
  {
  }

  /** No base name opens at position `i` or later of `h`. */
  predicate ClosedFrom(h: string, i: nat)
  {
    forall j :: i <= j && j + 1 < |h| ==> !Opens(h[j], h[j + 1])
  }

  lemma BaseInnerClosed(b: Base)
    ensures ClosedFrom(BaseTag(b), 1)
  {
    var h := BaseTag(b);
    match b
    case CannotSel =>
      forall j | 1 <= j && j + 1 < |h| ensures !Opens(h[j], h[j + 1]) { assert h[j] != 'm' || h[j + 1] != 'u'; }
    case SameSel =>
      forall j | 1 <= j && j + 1 < |h| ensures !Opens(h[j], h[j + 1]) { assert h[j] != 'm' || h[j + 1] != 'u'; }
    case DifferentSel =>
      forall j | 1 <= j && j + 1 < |h| ensures !Opens(h[j], h[j + 1]) { assert h[j] != 'm' || h[j + 1] != 'u'; }
    case MustOrd =>
      forall j | 1 <= j && j + 1 < |h| ensures !Opens(h[j], h[j + 1]) { assert h[j] != 'm' || h[j + 1] != 'u'; }
    case MustNotOrd =>
      forall j | 1 <= j && j + 1 < |h| ensures !Opens(h[j], h[j + 1]) { assert h[j] != 'm' || h[j + 1] != 'u'; }
    case MustSel =>
      forall j | 1 <= j && j + 1 < |h| ensures !Opens(h[j], h[j + 1]) { assert h[j] != 'm' || h[j + 1] != 'u'; }
  }

  lemma SuffixClosed(k: Kind)
    ensures ClosedFrom(Suffix(k), 0)
    ensures Suffix(k) == [] || Suffix(k)[0] == '_'
  {
    var h := Suffix(k);
    forall j | 0 <= j && j + 1 < |h| ensures !Opens(h[j], h[j + 1]) {
      assert h[j] != 'm' || h[j + 1] != 'u';
    }
  }

  /** Closing a name with a suffix that starts with an underscore opens nothing new. */
  lemma ClosedAppend(x: string, y: string)
    requires |x| >= 1 && ClosedFrom(x, 1) && ClosedFrom(y, 0)
    requires y == [] || y[0] == '_'
    ensures ClosedFrom(x + y, 1)
  {
    var h := x + y;
    forall j | 1 <= j && j + 1 < |h| ensures !Opens(h[j], h[j + 1]) {
      if j + 1 < |x| {
        assert h[j] == x[j] && h[j + 1] == x[j + 1];
      } else if j + 1 == |x| {
        assert h[j + 1] == y[0];
      } else {
        assert h[j] == y[j - |x|] && h[j + 1] == y[j + 1 - |x|];
      }
    }
  }

  /** Past its first letter, no tag has the opening of a base name. */
  lemma TagInnerClosed(k: Kind)
    ensures ClosedFrom(Tag(k), 1)
  {
    TagSplit(k);
    BaseInnerClosed(Lead(k));
    SuffixClosed(k);
    ClosedAppend(BaseTag(Lead(k)), Suffix(k));
  }

  /** A base name outside the table occurs nowhere in the tag: at the front
      the sixth letters differ, and elsewhere the first two letters do. */
  lemma UnmentionedAbsent(k: Kind, b: Base)
    requires !Mentions(k, b)
    ensures !IsSubstring(BaseTag(b), Tag(k))
  {
    var n := BaseTag(b);
    var h := Tag(k);
    BaseOpens(b);
    TagInnerClosed(k);
    forall i | 0 <= i && i + |n| <= |h| ensures Mismatch(n, h, i) {
      if i == 0 {
        assert h[0] != n[0] || h[5] != n[5];
      } else {
        assert h[i] != n[0] || h[i + 1] != n[1];
      }
    }
    NotSubstring(n, h);
  }

  /** Equality of tags is equality of kinds, so the `==` tests compare kinds. */
  lemma TagInjective(k1: Kind, k2: Kind)
    ensures Tag(k1) == Tag(k2) <==> k1 == k2
  {
    if Tag(k1) == Tag(k2) {
      assert |Tag(k1)| == |Tag(k2)| && Tag(k1)[0] == Tag(k2)[0];
    }
  }

  /** The rule that `rebuild_model` applies to a tag: the first base name of
      its if-chain that the tag contains. */
  function Dispatch(k: Kind): (b: Base)
    ensures Mentions(k, b)
    ensures forall b' :: Mentions(k, b') ==> b' == b
  {
    if Mentions(k, CannotSel) then CannotSel
    else if Mentions(k, SameSel) then SameSel
    else if Mentions(k, DifferentSel) then DifferentSel
    else if Mentions(k, MustOrd) then MustOrd
    else if Mentions(k, MustNotOrd) then MustNotOrd
    else MustSel
  }

  /** One stored constraint dictionary. `person2` and `items` are optional
      keys; `note` is `more_description`; `isDefault` is `is_default`, whose
      absence reads as false. */
  datatype Record = Record(
    kind: Kind,
    person1: Person,
    person2: Option<Person>,
    shop: Shop,
    items: Option<seq<Item>>,
    description: string,
    note: Option<string>,
    isDefault: bool)

  /** The deduplication key `type_person1_person2_shop` of `rebuild_model`;
      a missing `person2` is the empty string. Person and shop names contain
      no underscore, so the string key splits from the right into its four
      parts, and the string key and this tuple identify the same records. */
  datatype Key = Key(kind: Kind, person1: Person, person2: Option<Person>, shop: Shop)

  function KeyOf(r: Record): Key
  {
    Key(r.kind, r.person1, r.person2, r.shop)
  }

  /** The four records of `create_default_constraints`. The longer texts
      are written as several short literals joined with `+`. */
  function DefaultRecords(): seq<Record>
  {
    [ Record(CannotSelect, Cathy, None, FruitShop, Some([Salak]),
             "Cathy will not " + "pick Salak",
             Some("Cathy will not " + "pick Salak"), true),
      Record(DifferentSelection, Adam, Some(Bobby), FruitShop, None,
             "Adam must have " + "difference selection " + "from Bobby " + "in Fruit Shop",
             Some("Adam and Bobby " + "want to steal " + "each other's fruit, " + "so they will order " +
                  "different fruit"), true),
      Record(SameSelection, Adam, Some(Cathy), FruitShop, None,
             "Adam must have " + "same selection " + "as Cathy " + "in Fruit Shop",
             Some("Cathy likes " + "to be unique " + "in her choice " + "and will not order " +
                  "the same fruit " + "as anybody else, " + "but with " + "one exception: " +
                  "Adam and Cathy " + "are actually " + "best friends " + "and always order " +
                  "the same fruit " + "as each other"), true),
      Record(CannotSelect, Dean, None, FruitShop, Some([Quenepa]),
             "Dean cannot " + "select Quenepa " + "from Fruit Shop",
             Some("Dean dislikes " + "Quenepa and " + "will not order " + "this fruit."), true) ]
  }

  /** Bobby's dish record, appended by the start-up code after the defaults. */
  function BobbyDishRecord(): Record
  {
    Record(MustOrder, Bobby, None, DishShop, None,
           "Bobby must select " + "one of Pasta, " + "Risotto " + "from Dish Shop",
           Some("Bobby will only " + "order pasta " + "or risotto"), true)
  }

  /** The store right after start-up. */
  function StartupRecords(): seq<Record>
  {
    DefaultRecords() + [BobbyDishRecord()]
  }
}
