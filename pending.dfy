/**
 * The pending-verification bookkeeping of the logger as functions on values:
 * which `(missing ancestor, waiting record)` pairs a pointer scan appends, and
 * how the waiting list is partitioned when an ancestor is verified.
 */
module Pending {
  import opened Ndn

  /** `(missing ancestor, waiting record)`. */
  type Pair = (Name, Name)

  /**
   * The pairs the pointer scan of `verify_previous_record` appends for record
   * `name` with pointers `ptrs`: a pointer is pending when it is in the
   * no-previous set or not stored. The set is the live one: once one pointer
   * is pending, `name` itself belongs to it for the later pointers.
   */
  function Pended(ptrs: seq<Name>, name: Name, noPrev: set<Name>, stored: set<Name>): seq<Pair>
  {
    if ptrs == [] then []
    else
      var before := Pended(ptrs[..|ptrs| - 1], name, noPrev, stored);
      var p := ptrs[|ptrs| - 1];
      var live := if before == [] then noPrev else noPrev + {name};
      if p in live || p !in stored then before + [(p, name)] else before
  }

  /**
   * Every appended pair names `name` as the waiter and one of its pointers as
   * the ancestor, and every missing or pending pointer gets a pair.
   */
  lemma {:induction false} PendedMembers(ptrs: seq<Name>, name: Name, noPrev: set<Name>, stored: set<Name>)
    ensures forall pair :: pair in Pended(ptrs, name, noPrev, stored) ==> pair.1 == name && pair.0 in ptrs
    ensures forall p :: p in ptrs && (p in noPrev || p !in stored) ==> (p, name) in Pended(ptrs, name, noPrev, stored)
  {
    if ptrs != [] {
      var init := ptrs[..|ptrs| - 1];
      PendedMembers(init, name, noPrev, stored);
      assert ptrs == init + [ptrs[|ptrs| - 1]];
    }
  }

  /** The pointers absent from `stored` or in `noPrev`, in pointer order. */
  function Missing(ptrs: seq<Name>, noPrev: set<Name>, stored: set<Name>): seq<Name>
  {
    if ptrs == [] then []
    else
      var p := ptrs[|ptrs| - 1];
      Missing(ptrs[..|ptrs| - 1], noPrev, stored) + (if p in noPrev || p !in stored then [p] else [])
  }

  /** `Missing` holds exactly the pointers that are pending or not stored. */
  lemma {:induction false} MissingMembers(ptrs: seq<Name>, noPrev: set<Name>, stored: set<Name>)
    ensures forall p :: p in Missing(ptrs, noPrev, stored) <==> p in ptrs && (p in noPrev || p !in stored)
  {
    if ptrs != [] {
      var init := ptrs[..|ptrs| - 1];
      MissingMembers(init, noPrev, stored);
      assert ptrs == init + [ptrs[|ptrs| - 1]];
    }
  }

  function PairWith(ancestors: seq<Name>, name: Name): (r: seq<Pair>)
  {
    seq(|ancestors|, i requires 0 <= i < |ancestors| => (ancestors[i], name))
  }

  /**
   * When a record does not point at itself, the scan appends exactly one pair per
   * missing pointer, in pointer order: the growing no-previous set makes no difference.
   */
  lemma {:induction false} PendedIsMissing(ptrs: seq<Name>, name: Name, noPrev: set<Name>, stored: set<Name>)
    requires name !in ptrs
    ensures Pended(ptrs, name, noPrev, stored) == PairWith(Missing(ptrs, noPrev, stored), name)
  {
    if ptrs != [] {
      var init := ptrs[..|ptrs| - 1];
      assert forall q :: q in init ==> q in ptrs;
      PendedIsMissing(init, name, noPrev, stored);
    }
  }

  /** The pairs that stay in the waiting list when `name` is verified, in their old order. */
  function Kept(ws: seq<Pair>, name: Name): seq<Pair>
  {
    if ws == [] then []
    else
      var pair := ws[|ws| - 1];
      Kept(ws[..|ws| - 1], name) + (if pair.0 != name then [pair] else [])
  }

  /**
   * For a record that does not point at itself, the scan appends a pair exactly
   * for each missing pointer, and appends nothing exactly when none is missing.
   */
  lemma PendedExactly(ptrs: seq<Name>, name: Name, noPrev: set<Name>, stored: set<Name>)
    requires name !in ptrs
    ensures forall pair :: pair in Pended(ptrs, name, noPrev, stored) <==>
              pair.1 == name && pair.0 in Missing(ptrs, noPrev, stored)
    ensures Pended(ptrs, name, noPrev, stored) == [] <==> Missing(ptrs, noPrev, stored) == []
  {
    PendedIsMissing(ptrs, name, noPrev, stored);
    var missing := Missing(ptrs, noPrev, stored);
    forall pair: Pair | pair.1 == name && pair.0 in missing
      ensures pair in PairWith(missing, name)
    {
      var i :| 0 <= i < |missing| && missing[i] == pair.0;
      assert PairWith(missing, name)[i] == pair;
    }
  }

  /** Exactly the pairs waiting on some other ancestor stay. */
  lemma {:induction false} KeptMembers(ws: seq<Pair>, name: Name)
    ensures forall pair :: pair in Kept(ws, name) <==> pair in ws && pair.0 != name
  {
    if ws != [] {
      var init := ws[..|ws| - 1];
      KeptMembers(init, name);
      assert ws == init + [ws[|ws| - 1]];
    }
  }

  /** The records released when `name` is verified: the waiters of its pairs, in list order. */
  function Released(ws: seq<Pair>, name: Name): seq<Name>
  {
    if ws == [] then []
    else
      var pair := ws[|ws| - 1];
      Released(ws[..|ws| - 1], name) + (if pair.0 == name then [pair.1] else [])
  }

  /** A record is released exactly when it was waiting on `name`. */
  lemma {:induction false} ReleasedMembers(ws: seq<Pair>, name: Name)
    ensures forall w :: w in Released(ws, name) <==> (name, w) in ws
  {
    if ws != [] {
      var init := ws[..|ws| - 1];
      ReleasedMembers(init, name);
      assert ws == init + [ws[|ws| - 1]];
    }
  }

  /** Filtering commutes with concatenation: the pairs kept keep their relative order. */
  lemma {:induction false} KeptAppend(a: seq<Pair>, b: seq<Pair>, name: Name)
    ensures Kept(a + b, name) == Kept(a, name) + Kept(b, name)
    decreases |b|
  {
    if b == [] {
      assert a + b == a;
    } else {
      assert (a + b)[..|a + b| - 1] == a + b[..|b| - 1];
      KeptAppend(a, b[..|b| - 1], name);
    }
  }

  /** Every pair is either kept or released: the two parts together have the list's length. */
  lemma {:induction false} PartitionComplete(ws: seq<Pair>, name: Name)
    ensures |Kept(ws, name)| + |Released(ws, name)| == |ws|
  {
    if ws != [] {
      PartitionComplete(ws[..|ws| - 1], name);
    }
  }

  lemma {:induction false} ReleasedAppend(a: seq<Pair>, b: seq<Pair>, name: Name)
    ensures Released(a + b, name) == Released(a, name) + Released(b, name)
    decreases |b|
  {
    if b == [] {
      assert a + b == a;
    } else {
      assert (a + b)[..|a + b| - 1] == a + b[..|b| - 1];
      ReleasedAppend(a, b[..|b| - 1], name);
    }
  }

  /**
   * A verification cascade that took the waiting list from `w0` to `w1` and
   * the pending set from `n0` to `n1`, verifying the records in `verified`:
   * whoever waited on a verified record was verified too, only pairs on
   * verified records left the list, and only verified records left the
   * pending set; likewise only pairs of verified waiters joined the list, and
   * only verified records joined the pending set.
   */
  ghost predicate Reverified(w0: seq<Pair>, n0: set<Name>, w1: seq<Pair>, n1: set<Name>, verified: set<Name>)
  {
    && (forall pair :: pair in w0 && pair.0 in verified ==> pair.1 in verified)
    && (forall pair :: pair in w0 ==> pair in w1 || pair.0 in verified)
    && (forall n :: n in n0 && n !in n1 ==> n in verified)
    && (forall pair :: pair in w1 ==> pair in w0 || pair.1 in verified)
    && (forall n :: n in n1 ==> n in n0 || n in verified)
  }

  /** Two cascades in a row are one cascade verifying the records of both. */
  lemma ReverifiedThen(w0: seq<Pair>, n0: set<Name>, w1: seq<Pair>, n1: set<Name>, v1: set<Name>,
                       w2: seq<Pair>, n2: set<Name>, v2: set<Name>)
    requires Reverified(w0, n0, w1, n1, v1) && Reverified(w1, n1, w2, n2, v2)
    ensures Reverified(w0, n0, w2, n2, v1 + v2)
  {
  }

  /**
   * Scanning a record that does not point at itself and then partitioning on its
   * name: the new pairs are all kept, at the end, and only old waiters are released.
   */
  lemma PendThenRelease(before: seq<Pair>, ptrs: seq<Name>, name: Name, noPrev: set<Name>, stored: set<Name>)
    requires name !in ptrs
    ensures var added := Pended(ptrs, name, noPrev, stored);
            && Kept(before + added, name) == Kept(before, name) + added
            && Released(before + added, name) == Released(before, name)
  {
    var added := Pended(ptrs, name, noPrev, stored);
    PendedMembers(ptrs, name, noPrev, stored);
    KeptAppend(before, added, name);
    ReleasedAppend(before, added, name);
    KeptAll(added, name);
    ReleasedNone(added, name);
  }

  lemma {:induction false} KeptAll(ws: seq<Pair>, name: Name)
    requires forall pair :: pair in ws ==> pair.0 != name
    ensures Kept(ws, name) == ws
  {
    if ws != [] {
      var init, last := ws[..|ws| - 1], ws[|ws| - 1];
      assert last in ws;
      KeptAll(init, name);
      assert Kept(ws, name) == init + [last];
      assert ws == init + [last];
    }
  }

  lemma {:induction false} ReleasedNone(ws: seq<Pair>, name: Name)
    requires forall pair :: pair in ws ==> pair.0 != name
    ensures Released(ws, name) == []
  {
    if ws != [] {
      ReleasedNone(ws[..|ws| - 1], name);
    }
  }
}
