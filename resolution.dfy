/** Conflict resolution in the add-constraint dialog. For each report, in
    order, the reported record is removed from the store with `list.remove`.
    A default record is removed only after the user agrees; a refusal ends
    the dialog on the spot, keeping the removals already made. Every report
    carries `is_opposite` or `is_duplicate`, so no report is skipped. */
module Resolution {
  import opened Domain
  import opened Rules
  import opened Conflicts
  import opened Lists

  /** The user may be asked about this record and, if so, agreed. */
  predicate Confirmed(e: Record, confirm: Record -> bool)
  {
    !e.isDefault || confirm(e)
  }

  /** The records the reports point at, in order. */
  function Targets(rs: seq<Report>): (ts: seq<Record>)
    ensures |ts| == |rs|
    ensures forall i :: 0 <= i < |rs| ==> ts[i] == rs[i].constraint
  {
    seq(|rs|, i requires 0 <= i < |rs| => rs[i].constraint)
  }

  /** How the loop over the reports ended: all handled, stopped at a default
      the user kept, or stopped at a record that was no longer in the store. */
  datatype Status = Cleared | Declined | Missing

  /** The store after the loop, and how many reports removed a record. */
  datatype Outcome = Outcome(status: Status, store: seq<Record>, removed: nat)

  /** The resolution loop over the reported records, in report order;
      `confirm` stands for the yes/no dialog. */
  function Resolve(store: seq<Record>, targets: seq<Record>, confirm: Record -> bool): (res: Outcome)
    ensures res.removed <= |targets|
    decreases |targets|
  {
    if targets == [] then Outcome(Cleared, store, 0)
    else if !Confirmed(targets[0], confirm) then Outcome(Declined, store, 0)
    else
      match RemoveFirst(store, targets[0])
      case None => Outcome(Missing, store, 0)
      case Some(rest) =>
        var r := Resolve(rest, targets[1..], confirm);
        Outcome(r.status, r.store, r.removed + 1)
  }

  /** The loop removes one copy of each of the first `removed` targets, all
      of them confirmed, and stops at the first target the user keeps or that
      is no longer in the store; it completes exactly when it removes them all. */
  lemma ResolveRemovesPrefix(store: seq<Record>, targets: seq<Record>, confirm: Record -> bool)
    ensures var res := Resolve(store, targets, confirm);
            && multiset(store) == multiset(res.store) + multiset(targets[..res.removed])
            && (forall j :: 0 <= j < res.removed ==> Confirmed(targets[j], confirm))
            && (res.status == Cleared <==> res.removed == |targets|)
            && (res.status == Declined ==> !Confirmed(targets[res.removed], confirm))
            && (res.status == Missing ==> Confirmed(targets[res.removed], confirm) && targets[res.removed] !in res.store)
  {
    ResolveMultiset(store, targets, confirm);
    ResolveConfirmed(store, targets, confirm);
    ResolveStops(store, targets, confirm);
  }

  lemma {:induction false} ResolveMultiset(store: seq<Record>, targets: seq<Record>, confirm: Record -> bool)
    ensures var res := Resolve(store, targets, confirm);
            multiset(store) == multiset(res.store) + multiset(targets[..res.removed])
    decreases |targets|
  {
    if targets != [] && Confirmed(targets[0], confirm) && targets[0] in store {
      var rest := RemoveFirst(store, targets[0]).value;
      var r := Resolve(rest, targets[1..], confirm);
      ResolveMultiset(rest, targets[1..], confirm);
      RemoveThenRest(store, rest, targets, r.store, r.removed + 1);
      assert Resolve(store, targets, confirm) == Outcome(r.status, r.store, r.removed + 1);
    } else {
      assert targets[..0] == [];
    }
  }

  lemma {:induction false} ResolveConfirmed(store: seq<Record>, targets: seq<Record>, confirm: Record -> bool)
    ensures var res := Resolve(store, targets, confirm);
            forall j :: 0 <= j < res.removed ==> Confirmed(targets[j], confirm)
    decreases |targets|
  {
    if targets != [] && Confirmed(targets[0], confirm) && targets[0] in store {
      var rest := RemoveFirst(store, targets[0]).value;
      ResolveConfirmed(rest, targets[1..], confirm);
      var r := Resolve(rest, targets[1..], confirm);
      forall j | 0 < j < r.removed + 1 ensures Confirmed(targets[j], confirm) {
        assert targets[j] == targets[1..][j - 1];
      }
    }
  }

  lemma {:induction false} ResolveStops(store: seq<Record>, targets: seq<Record>, confirm: Record -> bool)
    ensures var res := Resolve(store, targets, confirm);
            && (res.status == Cleared <==> res.removed == |targets|)
            && (res.status == Declined ==> !Confirmed(targets[res.removed], confirm))
            && (res.status == Missing ==> Confirmed(targets[res.removed], confirm) && targets[res.removed] !in res.store)
    decreases |targets|
  {
    if targets != [] && Confirmed(targets[0], confirm) && targets[0] in store {
      var rest := RemoveFirst(store, targets[0]).value;
      ResolveStops(rest, targets[1..], confirm);
      var r := Resolve(rest, targets[1..], confirm);
      if r.removed < |targets[1..]| {
        assert targets[r.removed + 1] == targets[1..][r.removed];
      }
    }
  }

  /** The store after the loop is the input with the first occurrence of each
      of the first `removed` targets deleted in turn, by `list.remove`; the
      records left keep their old order. */
  lemma {:induction false} ResolveRemovesEach(store: seq<Record>, targets: seq<Record>, confirm: Record -> bool)
    ensures var res := Resolve(store, targets, confirm);
            && RemoveEach(store, targets[..res.removed]) == Some(res.store)
            && Subseq(res.store, store)
    decreases |targets|
  {
    var res := Resolve(store, targets, confirm);
    if targets != [] && Confirmed(targets[0], confirm) && targets[0] in store {
      var rest := RemoveFirst(store, targets[0]).value;
      ResolveRemovesEach(rest, targets[1..], confirm);
      var r := Resolve(rest, targets[1..], confirm);
      var ts := targets[..r.removed + 1];
      assert ts[0] == targets[0] && ts[1..] == targets[1..][..r.removed];
    } else {
      assert targets[..0] == [];
    }
    RemoveEachSubseq(store, targets[..res.removed]);
  }

  /** Taking the first target out and then the next `n - 1` leaves what
      taking the first `n` out does. */
  lemma RemoveThenRest<T>(store: seq<T>, rest: seq<T>, ts: seq<T>, left: seq<T>, n: nat)
    requires 0 < n <= |ts|
    requires multiset(store) == multiset(rest) + multiset{ts[0]}
    requires multiset(rest) == multiset(left) + multiset(ts[1..][..n - 1])
    ensures multiset(store) == multiset(left) + multiset(ts[..n])
  {
    assert ts[..n] == [ts[0]] + ts[1..][..n - 1];
  }

  /** When every report is handled, each reported record is removed once,
      and the rest of the store keeps its multiplicities. */
  lemma ClearedRemovesAllTargets(store: seq<Record>, targets: seq<Record>, confirm: Record -> bool)
    requires Resolve(store, targets, confirm).status == Cleared
    ensures multiset(store) == multiset(Resolve(store, targets, confirm).store) + multiset(targets)
  {
    ResolveRemovesPrefix(store, targets, confirm);
    assert targets[..|targets|] == targets;
  }

  /** A default record the user does not agree to remove keeps every copy
      it had in the store, whatever the outcome. */
  lemma UnconfirmedDefaultKept(store: seq<Record>, targets: seq<Record>, confirm: Record -> bool, d: Record)
    requires d.isDefault && !confirm(d)
    ensures multiset(Resolve(store, targets, confirm).store)[d] == multiset(store)[d]
  {
    ResolveRemovesPrefix(store, targets, confirm);
    var res := Resolve(store, targets, confirm);
    var ts := targets[..res.removed];
    forall j | 0 <= j < |ts| ensures ts[j] != d {
      assert Confirmed(ts[j], confirm);
    }
    assert d !in ts;
  }

  /** The loop never adds a record: every record after it was there before,
      with at least as many copies. */
  lemma ResolveOnlyRemoves(store: seq<Record>, targets: seq<Record>, confirm: Record -> bool)
    ensures multiset(Resolve(store, targets, confirm).store) <= multiset(store)
  {
    ResolveRemovesPrefix(store, targets, confirm);
  }
}
