/** `list.remove` on the Python lists the store is kept in. */
module Lists {
  import opened Domain

  /** `list.remove(x)`: drops the first element equal to `x`; `None` is the
      `ValueError` raised when there is none. */
  function RemoveFirst<T(==)>(s: seq<T>, x: T): (r: Option<seq<T>>)
    ensures r.None? <==> x !in s
    ensures r.Some? ==> multiset(r.value) + multiset{x} == multiset(s)
  {
    if s == [] then None
    else if s[0] == x then
      assert s == [s[0]] + s[1..];
      Some(s[1..])
    else
      match RemoveFirst(s[1..], x)
      case None => None
      case Some(t) =>
        assert s == [s[0]] + s[1..];
        Some([s[0]] + t)
  }

  /** The element removed is the first occurrence, and the others keep their order. */
  lemma RemoveFirstOccurrence<T>(s: seq<T>, x: T) returns (i: nat)
    requires x in s
    ensures i < |s| && s[i] == x && forall k :: 0 <= k < i ==> s[k] != x
    ensures RemoveFirst(s, x) == Some(s[..i] + s[i + 1..])
  {
    i := FirstIndex(s, x);
    RemoveAt(s, x, i);
  }

  lemma {:induction false} FirstIndex<T>(s: seq<T>, x: T) returns (i: nat)
    requires x in s
    ensures i < |s| && s[i] == x && forall k :: 0 <= k < i ==> s[k] != x
  {
    if s[0] == x {
      i := 0;
    } else {
      var j := FirstIndex(s[1..], x);
      i := j + 1;
      forall k | 0 < k < i ensures s[k] != x {
        assert s[k] == s[1..][k - 1];
      }
    }
  }

  lemma {:induction false} RemoveAt<T>(s: seq<T>, x: T, i: nat)
    requires i < |s| && s[i] == x
    requires forall k :: 0 <= k < i ==> s[k] != x
    ensures RemoveFirst(s, x) == Some(s[..i] + s[i + 1..])
  {
    if i == 0 {
      assert s[..0] + s[1..] == s[1..];
    } else {
      var t := s[1..];
      forall k | 0 <= k < i - 1 ensures t[k] != x {
        assert t[k] == s[k + 1];
      }
      RemoveAt(t, x, i - 1);
      assert [s[0]] + (t[..i - 1] + t[i..]) == s[..i] + s[i + 1..];
    }
  }

  /** `for t in ts: s.remove(t)`: the first occurrence of each element of
      `ts` removed in turn; `None` when some removal raises. */
  function RemoveEach<T(==)>(s: seq<T>, ts: seq<T>): (r: Option<seq<T>>)
    ensures r.Some? ==> multiset(r.value) + multiset(ts) == multiset(s)
    decreases |ts|
  {
    if ts == [] then Some(s)
    else
      match RemoveFirst(s, ts[0])
      case None => None
      case Some(t) =>
        assert ts == [ts[0]] + ts[1..];
        RemoveEach(t, ts[1..])
  }

  /** `a` is `b` with some elements left out, the others in their order. */
  predicate Subseq<T(==)>(a: seq<T>, b: seq<T>)
    decreases |b|
  {
    if a == [] then true
    else if b == [] then false
    else if a[0] == b[0] then Subseq(a[1..], b[1..])
    else Subseq(a, b[1..])
  }

  lemma {:induction false} SubseqRefl<T>(s: seq<T>)
    ensures Subseq(s, s)
    decreases |s|
  {
    if s != [] {
      SubseqRefl(s[1..]);
    }
  }

  /** Putting an element in front of `b` keeps every subsequence of `b`. */
  lemma {:induction false} SubseqCons<T>(a: seq<T>, b: seq<T>, x: T)
    requires Subseq(a, b)
    ensures Subseq(a, [x] + b)
    decreases |b|, 1
  {
    assert ([x] + b)[1..] == b;
    if a != [] && a[0] == x {
      SubseqDropHead(a, b);
    }
  }

  /** Leaving out the first element of a subsequence keeps it a subsequence. */
  lemma {:induction false} SubseqDropHead<T>(a: seq<T>, b: seq<T>)
    requires a != [] && Subseq(a, b)
    ensures Subseq(a[1..], b)
    decreases |b|, 0
  {
    if a[0] == b[0] {
      SubseqCons(a[1..], b[1..], b[0]);
    } else {
      SubseqDropHead(a, b[1..]);
      SubseqCons(a[1..], b[1..], b[0]);
    }
    assert [b[0]] + b[1..] == b;
  }

  lemma {:induction false} SubseqTrans<T>(a: seq<T>, b: seq<T>, c: seq<T>)
    requires Subseq(a, b) && Subseq(b, c)
    ensures Subseq(a, c)
    decreases |c|
  {
    if a != [] {
      if b[0] == c[0] {
        if a[0] == b[0] {
          SubseqTrans(a[1..], b[1..], c[1..]);
        } else {
          SubseqTrans(a, b[1..], c[1..]);
        }
      } else {
        SubseqTrans(a, b, c[1..]);
        if a[0] == c[0] {
          SubseqDropHead(a, c[1..]);
        }
      }
    }
  }

  /** `list.remove` keeps the other elements in their order. */
  lemma {:induction false} RemoveFirstSubseq<T>(s: seq<T>, x: T)
    requires RemoveFirst(s, x).Some?
    ensures Subseq(RemoveFirst(s, x).value, s)
    decreases |s|
  {
    if s[0] == x {
      SubseqRefl(s[1..]);
      SubseqCons(s[1..], s[1..], s[0]);
      assert [s[0]] + s[1..] == s;
    } else {
      var t := RemoveFirst(s[1..], x).value;
      RemoveFirstSubseq(s[1..], x);
      assert ([s[0]] + t)[1..] == t;
    }
  }

  /** So does removing several elements in turn. */
  lemma {:induction false} RemoveEachSubseq<T>(s: seq<T>, ts: seq<T>)
    requires RemoveEach(s, ts).Some?
    ensures Subseq(RemoveEach(s, ts).value, s)
    decreases |ts|
  {
    if ts == [] {
      SubseqRefl(s);
    } else {
      var t := RemoveFirst(s, ts[0]).value;
      RemoveFirstSubseq(s, ts[0]);
      RemoveEachSubseq(t, ts[1..]);
      SubseqTrans(RemoveEach(s, ts).value, t, s);
    }
  }

  /** Appending and then dropping the last element gives the list back. */
  lemma DropAppended<T>(s: seq<T>, x: T)
    ensures (s + [x])[..|s|] == s
  {
  }

  /** Appending after a non-empty list keeps its head and appends to its tail. */
  lemma TailAppended<T>(s: seq<T>, x: T)
    requires s != []
    ensures (s + [x])[0] == s[0] && (s + [x])[1..] == s[1..] + [x]
  {
  }
}
