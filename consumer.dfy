/**
 * The logger node of `consumer.py`: it seeds genesis records, turns log events
 * into DAG records that link to its own previous record and to recent tips,
 * and verifies records received from peers, keeping records whose ancestors
 * are missing in a pending list until those ancestors arrive.
 */
module Consumer {
  import opened Wrappers
  import opened Ndn
  import opened RecordModel
  import opened Pending

  type Hash = seq<bv8>

  /**
   * A DAG record as the logger builds and reads it: its name, whether it is a
   * genesis record, the log event it carries, and its pointers with the hash
   * of each pointed-to record at link time.
   */
  datatype DagRecord = DagRecord(
    name: Name,
    genesis: bool,
    logEvent: string,
    pointers: seq<Name>,
    pointerHashes: seq<Hash>)

  function Genesis(name: Name): DagRecord
  {
    DagRecord(name, true, "", [], [])
  }

  /** The number of links a record carries, and the length of the tip ring. */
  const NumRecordLinks: nat := 2

  /** The store with genesis records `0..count-1` written over `m`, in index order. */
  function Seeded(m: map<Name, DagRecord>, genesisName: nat -> Name, count: nat): (r: map<Name, DagRecord>)
    ensures r.Keys == m.Keys + set i | 0 <= i < count :: genesisName(i)
  {
    if count == 0 then m
    else
      var g := genesisName(count - 1);
      Seeded(m, genesisName, count - 1)[g := Genesis(g)]
  }

  /** `s` without the names in `excluded`, in order. */
  function Without(s: seq<Name>, excluded: set<Name>): seq<Name>
  {
    if s == [] then []
    else
      var n := s[|s| - 1];
      Without(s[..|s| - 1], excluded) + (if n in excluded then [] else [n])
  }

  /** `Without` keeps exactly the names of `s` that are not excluded, and never lengthens `s`. */
  lemma {:induction false} WithoutMembers(s: seq<Name>, excluded: set<Name>)
    ensures forall n :: n in Without(s, excluded) <==> n in s && n !in excluded
    ensures |Without(s, excluded)| <= |s|
  {
    if s != [] {
      WithoutMembers(s[..|s| - 1], excluded);
      assert s == s[..|s| - 1] + [s[|s| - 1]];
    }
  }

  /** The first `n` elements of `s`, or all of `s` when it is shorter. */
  function Take(s: seq<Name>, n: int): seq<Name>
  {
    if n <= 0 || s == [] then [] else [s[0]] + Take(s[1..], n - 1)
  }

  /** `Take` only takes elements of `s`, and at most `n` of them. */
  lemma {:induction false} TakeMembers(s: seq<Name>, n: int)
    ensures forall x :: x in Take(s, n) ==> x in s
    ensures |Take(s, n)| <= if n <= 0 then 0 else n
  {
    if n > 0 && s != [] {
      TakeMembers(s[1..], n - 1);
    }
  }

  lemma {:induction false} TakeIsPrefix(s: seq<Name>, n: int)
    ensures Take(s, n) == s[..if n <= 0 then 0 else if |s| < n then |s| else n]
  {
    if n > 0 && s != [] {
      TakeIsPrefix(s[1..], n - 1);
      assert s == [s[0]] + s[1..];
    }
  }

  /** What `random.shuffle` may do: reorder a list arbitrarily, keeping its elements. */
  ghost predicate IsShuffle(shuffle: seq<Name> -> seq<Name>)
  {
    forall s :: multiset(shuffle(s)) == multiset(s)
  }

  lemma ShuffleKeepsElements(shuffle: seq<Name> -> seq<Name>, s: seq<Name>)
    requires IsShuffle(shuffle)
    ensures forall n :: n in shuffle(s) <==> n in s
  {
    assert multiset(shuffle(s)) == multiset(s);
    forall n
      ensures n in shuffle(s) <==> n in s
    {
      assert n in shuffle(s) <==> n in multiset(shuffle(s));
    }
  }

  /**
   * The links `create_record` draws from the ring are ring names that are not
   * waiting for verification, whatever order the shuffle chose.
   */
  lemma DrawnLinks(shuffle: seq<Name> -> seq<Name>, ring: seq<Name>, waiting: set<Name>, n: int)
    requires IsShuffle(shuffle)
    ensures forall p :: p in Take(shuffle(Without(ring, waiting)), n) ==> p in ring && p !in waiting
  {
    WithoutMembers(ring, waiting);
    ShuffleKeepsElements(shuffle, Without(ring, waiting));
    TakeMembers(shuffle(Without(ring, waiting)), n);
  }

  /** A record whose every pointer ranks above it: no pointer can lead back to it. */
  ghost predicate Ranked(rank: Name -> nat, rec: DagRecord)
  {
    forall p :: p in rec.pointers ==> rank(rec.name) < rank(p)
  }

  /**
   * Record `v` is stored in `records` and, in waiting list `w` and pending set
   * `n`, pending on each of its pointers that `records` does not hold or that
   * is in `stale`, a set of records that stayed pending throughout.
   */
  ghost predicate PendingOnMissing(records: map<Name, DagRecord>, w: seq<Pair>, n: set<Name>, stale: set<Name>, v: Name)
  {
    && v in records
    && forall p :: p in records[v].pointers && (p !in records || p in stale) ==> (p, v) in w && v in n
  }

  /**
   * A cascade that verifies only stored records, none of them in `stale1`,
   * leaves every other record pending as it was.
   */
  lemma PendingStays(records: map<Name, DagRecord>, w0: seq<Pair>, n0: set<Name>, w1: seq<Pair>, n1: set<Name>,
                     verified: set<Name>, stale0: set<Name>, stale1: set<Name>, v: Name)
    requires PendingOnMissing(records, w0, n0, stale0, v)
    requires Reverified(w0, n0, w1, n1, verified)
    requires v !in verified && verified <= records.Keys
    requires stale1 <= stale0 && stale1 !! verified
    ensures PendingOnMissing(records, w1, n1, stale1, v)
  {
  }

  /**
   * The pending state after `verify_previous_record` ran on received record
   * `rec` with store `records`, taking the waiting list from `w0` to `w1` and
   * the pending set from `n0` to `n1` and verifying the records in `verified`:
   * `rec` and stored records ranked below it, at any depth. `rec` ends up
   * pending on exactly its missing or pending ancestors, and is pending
   * exactly when it was or one of them exists. Every other verified record is
   * pending on each of its unstored ancestors. A record that waited on `rec`
   * while `rec` was not stored waits on it again.
   */
  ghost predicate Cascaded(records: map<Name, DagRecord>, rank: Name -> nat, rec: DagRecord,
                           w0: seq<Pair>, n0: set<Name>, w1: seq<Pair>, n1: set<Name>, verified: set<Name>)
  {
    && rec.name in verified
    && (forall v :: v in verified && v != rec.name ==> v in records && rank(v) < rank(rec.name))
    && Reverified(w0, n0, w1, n1, verified)
    && (forall v :: v in verified && v != rec.name ==> PendingOnMissing(records, w1, n1, n0 - verified, v))
    && (forall p :: p in rec.pointers && (p in n0 || p !in records) ==> (p, rec.name) in w1 && rec.name in n1)
    && (forall p :: (p, rec.name) in w1 <==> (p, rec.name) in w0 || p in Missing(rec.pointers, n0, records.Keys))
    && (rec.name in n1 <==> rec.name in n0 || Missing(rec.pointers, n0, records.Keys) != [])
    && (forall w ::
          (&& (rec.name, w) in w0 && rec.name !in records && w in records && rec.name in records[w].pointers)
          ==> (rec.name, w) in w1 && w in n1)
  }

  /**
   * A cascade on a received record that re-pends each verified record on its
   * unstored ancestors re-pends, in particular, every record that waited on
   * the received one before it was stored.
   */
  lemma CascadedIntro(records: map<Name, DagRecord>, rank: Name -> nat, rec: DagRecord,
                      w0: seq<Pair>, n0: set<Name>, w1: seq<Pair>, n1: set<Name>, verified: set<Name>)
    requires forall pair :: pair in w0 ==> rank(pair.1) < rank(pair.0)
    requires rec.name in verified
    requires forall v :: v in verified && v != rec.name ==> v in records && rank(v) < rank(rec.name)
    requires Reverified(w0, n0, w1, n1, verified)
    requires forall v :: v in verified && v != rec.name ==> PendingOnMissing(records, w1, n1, n0 - verified, v)
    requires forall p :: p in rec.pointers && (p in n0 || p !in records) ==> (p, rec.name) in w1 && rec.name in n1
    requires forall p :: (p, rec.name) in w1 <==> (p, rec.name) in w0 || p in Missing(rec.pointers, n0, records.Keys)
    requires rec.name in n1 <==> rec.name in n0 || Missing(rec.pointers, n0, records.Keys) != []
    ensures Cascaded(records, rank, rec, w0, n0, w1, n1, verified)
  {
    forall w | (rec.name, w) in w0 && rec.name !in records && w in records && rec.name in records[w].pointers
      ensures (rec.name, w) in w1 && w in n1
    {
      assert w in verified && w != rec.name;
      assert PendingOnMissing(records, w1, n1, n0 - verified, w);
    }
  }

  /** A received record passes `check_pointer_count`. */
  predicate Accepted(rec: DagRecord)
  {
    |rec.pointers| == NumRecordLinks && Distinct(rec.pointers)
  }

  /** Sequence number `seqno` of `nid` delivers a record that fails `check_pointer_count`. */
  predicate Rejected(fetch: (Name, int) -> Option<Bytes>, decode: Bytes -> DagRecord, nid: Name, seqno: int)
  {
    Delivers(fetch(nid, seqno)) && !Accepted(decode(fetch(nid, seqno).value))
  }

  /** No sequence number of `low..high` of `nid` delivers a record the pointer check rejects. */
  predicate NoneRejected(fetch: (Name, int) -> Option<Bytes>, decode: Bytes -> DagRecord, nid: Name, low: int, high: int)
    decreases high - low
  {
    low > high || (NoneRejected(fetch, decode, nid, low, high - 1) && !Rejected(fetch, decode, nid, high))
  }

  lemma {:induction false} NoneRejectedMeans(fetch: (Name, int) -> Option<Bytes>, decode: Bytes -> DagRecord,
                                             nid: Name, low: int, high: int)
    ensures NoneRejected(fetch, decode, nid, low, high) <==>
              forall s :: low <= s <= high ==> !Rejected(fetch, decode, nid, s)
    decreases high - low
  {
    if low <= high {
      NoneRejectedMeans(fetch, decode, nid, low, high - 1);
    }
  }

  /** Sequence number `s` of range `m` is the first one whose record the pointer check rejects. */
  predicate FirstRejected(fetch: (Name, int) -> Option<Bytes>, decode: Bytes -> DagRecord, m: MissingData, s: int)
  {
    && m.lowSeqno <= s <= m.highSeqno
    && Rejected(fetch, decode, m.nid, s)
    && NoneRejected(fetch, decode, m.nid, m.lowSeqno, s - 1)
  }

  /** The names of the records that `low..high` of `nid` deliver and that pass the pointer check. */
  function AcceptedNames(fetch: (Name, int) -> Option<Bytes>, decode: Bytes -> DagRecord, nid: Name, low: int, high: int): set<Name>
    decreases high - low
  {
    if low > high then {}
    else
      var payload := fetch(nid, high);
      AcceptedNames(fetch, decode, nid, low, high - 1)
        + (if Delivers(payload) && Accepted(decode(payload.value)) then {decode(payload.value).name} else {})
  }

  /** A name is accepted from a range exactly when some sequence number in it delivers a record of that name that passes the check. */
  lemma {:induction false} AcceptedNamesMembers(fetch: (Name, int) -> Option<Bytes>, decode: Bytes -> DagRecord,
                                                nid: Name, low: int, high: int, n: Name)
    ensures n in AcceptedNames(fetch, decode, nid, low, high) <==>
              exists s :: && low <= s <= high && Delivers(fetch(nid, s))
                          && Accepted(decode(fetch(nid, s).value)) && n == decode(fetch(nid, s).value).name
    decreases high - low
  {
    if low <= high {
      AcceptedNamesMembers(fetch, decode, nid, low, high - 1, n);
      var payload := fetch(nid, high);
      if Delivers(payload) && Accepted(decode(payload.value)) && n == decode(payload.value).name {
        assert low <= high <= high;
      }
    }
  }

  /** No range of `missing` delivers a record the pointer check rejects. */
  predicate AllNoneRejected(fetch: (Name, int) -> Option<Bytes>, decode: Bytes -> DagRecord, missing: seq<MissingData>)
  {
    missing == [] ||
    (var m := missing[|missing| - 1];
     AllNoneRejected(fetch, decode, missing[..|missing| - 1]) && NoneRejected(fetch, decode, m.nid, m.lowSeqno, m.highSeqno))
  }

  /** The accepted names of every range of `missing`. */
  function AllAcceptedNames(fetch: (Name, int) -> Option<Bytes>, decode: Bytes -> DagRecord, missing: seq<MissingData>): set<Name>
  {
    if missing == [] then {}
    else
      var m := missing[|missing| - 1];
      AllAcceptedNames(fetch, decode, missing[..|missing| - 1]) + AcceptedNames(fetch, decode, m.nid, m.lowSeqno, m.highSeqno)
  }

  /** The records that `low..high` of `nid` deliver and that pass the pointer check, in sequence-number order. */
  function AcceptedRecords(fetch: (Name, int) -> Option<Bytes>, decode: Bytes -> DagRecord, nid: Name, low: int, high: int)
    : seq<DagRecord>
    decreases high - low
  {
    if low > high then []
    else
      var payload := fetch(nid, high);
      AcceptedRecords(fetch, decode, nid, low, high - 1)
        + (if Delivers(payload) && Accepted(decode(payload.value)) then [decode(payload.value)] else [])
  }

  /** The records accepted from the sequence numbers of `nid` from `low` up to, not including, `s`. */
  function AcceptedBelow(fetch: (Name, int) -> Option<Bytes>, decode: Bytes -> DagRecord, nid: Name, low: int, s: int)
    : seq<DagRecord>
  {
    AcceptedRecords(fetch, decode, nid, low, s - 1)
  }

  /** The accepted records of every range of `missing`, range after range. */
  function AllAcceptedRecords(fetch: (Name, int) -> Option<Bytes>, decode: Bytes -> DagRecord, missing: seq<MissingData>)
    : seq<DagRecord>
  {
    if missing == [] then []
    else
      var m := missing[|missing| - 1];
      AllAcceptedRecords(fetch, decode, missing[..|missing| - 1]) + AcceptedRecords(fetch, decode, m.nid, m.lowSeqno, m.highSeqno)
  }

  /**
   * The records accepted before sequence number `s` of range `j` was
   * rejected: those of the earlier ranges, then those of range `j` before `s`.
   */
  function AcceptedBefore(fetch: (Name, int) -> Option<Bytes>, decode: Bytes -> DagRecord, missing: seq<MissingData>,
                          j: nat, s: int): seq<DagRecord>
    requires j < |missing|
  {
    AllAcceptedRecords(fetch, decode, missing[..j]) + AcceptedBelow(fetch, decode, missing[j].nid, missing[j].lowSeqno, s)
  }

  /** The names of `recs`. */
  function Names(recs: seq<DagRecord>): set<Name>
  {
    set r | r in recs :: r.name
  }

  /** A range accepts exactly the names of its accepted records. */
  lemma {:induction false} AcceptedNamesOfRecords(fetch: (Name, int) -> Option<Bytes>, decode: Bytes -> DagRecord,
                                                  nid: Name, low: int, high: int)
    ensures AcceptedNames(fetch, decode, nid, low, high) == Names(AcceptedRecords(fetch, decode, nid, low, high))
    decreases high - low
  {
    if low <= high {
      AcceptedNamesOfRecords(fetch, decode, nid, low, high - 1);
      var payload := fetch(nid, high);
      var extra := if Delivers(payload) && Accepted(decode(payload.value)) then [decode(payload.value)] else [];
      NamesAppend(AcceptedRecords(fetch, decode, nid, low, high - 1), extra);
    }
  }

  /** Every range of `missing` together accepts exactly the names of their accepted records. */
  lemma {:induction false} AllAcceptedNamesOfRecords(fetch: (Name, int) -> Option<Bytes>, decode: Bytes -> DagRecord,
                                                     missing: seq<MissingData>)
    ensures AllAcceptedNames(fetch, decode, missing) == Names(AllAcceptedRecords(fetch, decode, missing))
  {
    if missing != [] {
      var m := missing[|missing| - 1];
      AllAcceptedNamesOfRecords(fetch, decode, missing[..|missing| - 1]);
      AcceptedNamesOfRecords(fetch, decode, m.nid, m.lowSeqno, m.highSeqno);
      NamesAppend(AllAcceptedRecords(fetch, decode, missing[..|missing| - 1]),
                  AcceptedRecords(fetch, decode, m.nid, m.lowSeqno, m.highSeqno));
    }
  }

  lemma NamesAppend(a: seq<DagRecord>, b: seq<DagRecord>)
    ensures Names(a + b) == Names(a) + Names(b)
  {
    assert forall r :: r in a + b <==> r in a || r in b;
  }

  /**
   * A range's accepted records are those of its first part followed by the
   * record of its last sequence number, if that one is delivered and accepted.
   */
  lemma AcceptedRecordsSplit(fetch: (Name, int) -> Option<Bytes>, decode: Bytes -> DagRecord, nid: Name, low: int, high: int)
    requires low <= high
    ensures AcceptedRecords(fetch, decode, nid, high, high)
            == (if Delivers(fetch(nid, high)) && Accepted(decode(fetch(nid, high).value)) then [decode(fetch(nid, high).value)] else [])
    ensures AcceptedRecords(fetch, decode, nid, low, high)
            == AcceptedRecords(fetch, decode, nid, low, high - 1) + AcceptedRecords(fetch, decode, nid, high, high)
  {
  }

  /** `records` after storing each of `recs` in turn under its own name. */
  function StoreEach(records: map<Name, DagRecord>, recs: seq<DagRecord>): map<Name, DagRecord>
  {
    if recs == [] then records
    else StoreEach(records, recs[..|recs| - 1])[recs[|recs| - 1].name := recs[|recs| - 1]]
  }

  lemma {:induction false} StoreEachAppend(records: map<Name, DagRecord>, a: seq<DagRecord>, b: seq<DagRecord>)
    ensures StoreEach(records, a + b) == StoreEach(StoreEach(records, a), b)
    decreases |b|
  {
    if b == [] {
      assert a + b == a;
    } else {
      assert (a + b)[..|a + b| - 1] == a + b[..|b| - 1];
      StoreEachAppend(records, a, b[..|b| - 1]);
    }
  }

  /** Storing records adds exactly their names. */
  lemma {:induction false} StoreEachKeys(records: map<Name, DagRecord>, recs: seq<DagRecord>)
    ensures StoreEach(records, recs).Keys == records.Keys + Names(recs)
  {
    if recs != [] {
      var init := recs[..|recs| - 1];
      StoreEachKeys(records, init);
      NamesAppend(init, [recs[|recs| - 1]]);
      assert init + [recs[|recs| - 1]] == recs;
    }
  }

  /** The record a name ends up with is the last one stored under it. */
  lemma {:induction false} StoreEachLastWins(records: map<Name, DagRecord>, recs: seq<DagRecord>, i: nat)
    requires i < |recs|
    requires forall k :: i < k < |recs| ==> recs[k].name != recs[i].name
    ensures recs[i].name in StoreEach(records, recs) && StoreEach(records, recs)[recs[i].name] == recs[i]
  {
    if i < |recs| - 1 {
      var init := recs[..|recs| - 1];
      assert init[i] == recs[i];
      StoreEachLastWins(records, init, i);
    }
  }

  /** A name that no stored record carries keeps its record. */
  lemma {:induction false} StoreEachOthers(records: map<Name, DagRecord>, recs: seq<DagRecord>, n: Name)
    requires n in records && forall r :: r in recs ==> r.name != n
    ensures n in StoreEach(records, recs) && StoreEach(records, recs)[n] == records[n]
  {
    if recs != [] {
      StoreEachOthers(records, recs[..|recs| - 1], n);
    }
  }

  /**
   * The tip ring and its next slot after writing the names of `recs` in
   * turn, each into the next slot, wrapping around.
   */
  function RingEach(ring: seq<Name>, tops: nat, recs: seq<DagRecord>): (r: (seq<Name>, nat))
    requires tops < |ring|
    ensures |r.0| == |ring| && r.1 < |ring|
  {
    if recs == [] then (ring, tops)
    else
      var (names, top) := RingEach(ring, tops, recs[..|recs| - 1]);
      (names[top := recs[|recs| - 1].name], (top + 1) % |names|)
  }

  lemma ModUnique(x: int, n: int, q: int, r: int)
    requires 0 < n && 0 <= r < n && x == q * n + r
    ensures x % n == r
  {
    var q', r' := x / n, x % n;
    assert (q - q') * n == r' - r;
    if q > q' {
      MulAtLeast(q - q', n);
    } else if q < q' {
      MulAtLeast(q' - q, n);
    }
  }

  lemma MulAtLeast(k: int, n: int)
    requires k >= 1 && n > 0
    ensures k * n >= n
  {
  }

  lemma ModShift(tops: nat, a: nat, b: nat, size: nat)
    requires 0 < size
    ensures ((tops + a) % size + b) % size == (tops + a + b) % size
  {
    var q, r := (tops + a) / size, (tops + a) % size;
    var q2, r2 := (r + b) / size, (r + b) % size;
    assert tops + a + b == (q + q2) * size + r2;
    ModUnique(tops + a + b, size, q + q2, r2);
  }

  lemma {:induction false} RingEachAppend(ring: seq<Name>, tops: nat, a: seq<DagRecord>, b: seq<DagRecord>)
    requires tops < |ring|
    ensures RingEach(ring, tops, a + b) == RingEach(RingEach(ring, tops, a).0, RingEach(ring, tops, a).1, b)
    decreases |b|
  {
    if b == [] {
      assert a + b == a;
    } else {
      assert (a + b)[..|a + b| - 1] == a + b[..|b| - 1];
      RingEachAppend(ring, tops, a, b[..|b| - 1]);
    }
  }

  /** Each write moves the next slot one place on, wrapping around. */
  lemma {:induction false} RingEachTop(ring: seq<Name>, tops: nat, recs: seq<DagRecord>)
    requires tops < |ring|
    ensures RingEach(ring, tops, recs).1 == (tops + |recs|) % |ring|
  {
    if recs != [] {
      RingEachTop(ring, tops, recs[..|recs| - 1]);
      ModShift(tops, |recs| - 1, 1, |ring|);
    }
  }

  /** The ring holds only names it held before or names of `recs`. */
  lemma {:induction false} RingEachNames(ring: seq<Name>, tops: nat, recs: seq<DagRecord>)
    requires tops < |ring|
    ensures forall n :: n in RingEach(ring, tops, recs).0 ==> n in ring || n in Names(recs)
  {
    if recs != [] {
      var init := recs[..|recs| - 1];
      RingEachNames(ring, tops, init);
      NamesAppend(init, [recs[|recs| - 1]]);
      assert init + [recs[|recs| - 1]] == recs;
    }
  }

  /** Each of the last `|ring|` records written sits in the slot it was written to. */
  lemma {:induction false} RingEachLatest(ring: seq<Name>, tops: nat, recs: seq<DagRecord>, i: nat)
    requires tops < |ring| && i < |recs| && |recs| - i <= |ring|
    ensures RingEach(ring, tops, recs).0[(tops + i) % |ring|] == recs[i].name
  {
    var init := recs[..|recs| - 1];
    RingEachTop(ring, tops, init);
    if i < |recs| - 1 {
      assert init[i] == recs[i];
      RingEachLatest(ring, tops, init, i);
      SlotsDiffer(tops, i, |recs| - 1, |ring|);
    }
  }

  /** Two writes fewer than `size` slots apart land in different slots. */
  lemma SlotsDiffer(tops: nat, i: nat, j: nat, size: nat)
    requires i < j < i + size
    ensures (tops + i) % size != (tops + j) % size
  {
    var q, r := (tops + i) / size, (tops + i) % size;
    var q2, r2 := (tops + j) / size, (tops + j) % size;
    assert tops + i == q * size + r;
    assert tops + j == q2 * size + r2;
    if r == r2 {
      var k := q2 - q;
      assert k * size == j - i;
      if k >= 1 {
        MulAtLeast(k, size);
      } else if k <= -1 {
        MulAtLeast(-k, size);
      }
    }
  }

  /**
   * Store `records` and tip ring `ring` with next slot `tops` are what
   * receiving each of `recs` in turn makes of `records0`, `ring0` and `tops0`.
   */
  ghost predicate ReceivedEach(records0: map<Name, DagRecord>, ring0: seq<Name>, tops0: nat, recs: seq<DagRecord>,
                               records: map<Name, DagRecord>, ring: seq<Name>, tops: nat)
  {
    && tops0 < |ring0|
    && records == StoreEach(records0, recs)
    && (ring, tops) == RingEach(ring0, tops0, recs)
  }

  /** Receiving no record leaves the store and the ring as they were. */
  lemma ReceivedEmpty(records0: map<Name, DagRecord>, ring0: seq<Name>, tops0: nat,
                      records: map<Name, DagRecord>, ring: seq<Name>, tops: nat)
    requires ReceivedEach(records0, ring0, tops0, [], records, ring, tops)
    ensures records == records0 && ring == ring0 && tops == tops0
  {
  }

  /** Store `records` holds a record for each name of `events`, carrying that log event. */
  ghost predicate Carries(records: map<Name, DagRecord>, events: map<Name, string>)
  {
    forall n :: n in events ==> n in records && records[n].logEvent == events[n]
  }

  /**
   * A store that carried `events1` and then changed only names in `built`, where
   * it now carries `events2`, carries both, the later ones winning.
   */
  lemma CarriesThen(records1: map<Name, DagRecord>, records2: map<Name, DagRecord>,
                    events1: map<Name, string>, events2: map<Name, string>, built: set<Name>)
    requires Carries(records1, events1) && Carries(records2, events2)
    requires records2 - built == records1 - built && events2.Keys == built
    ensures Carries(records2, events1 + events2)
  {
    forall n | n in events1 && n !in events2
      ensures n in records2 && records2[n].logEvent == events1[n]
    {
      assert n in records1 - built;
      assert (records2 - built)[n] == (records1 - built)[n];
    }
  }

  /** Two stores that agree outside `s1` agree outside any larger set. */
  lemma AgreeOutsideGrow(records0: map<Name, DagRecord>, records1: map<Name, DagRecord>, s1: set<Name>, s2: set<Name>)
    requires records1 - s1 == records0 - s1 && s1 <= s2
    ensures records1 - s2 == records0 - s2
  {
    assert records1 - s2 == (records1 - s1) - s2;
    assert records0 - s2 == (records0 - s1) - s2;
  }

  lemma ReceivedNone(records: map<Name, DagRecord>, ring: seq<Name>, tops: nat)
    requires tops < |ring|
    ensures ReceivedEach(records, ring, tops, [], records, ring, tops)
  {
  }

  lemma ReceivedOne(records: map<Name, DagRecord>, ring: seq<Name>, tops: nat, rec: DagRecord)
    requires tops < |ring|
    ensures ReceivedEach(records, ring, tops, [rec], records[rec.name := rec], ring[tops := rec.name], (tops + 1) % |ring|)
  {
    assert [rec][..0] == [];
  }

  /** Receiving `a` and then `b` is receiving `a + b`. */
  lemma ReceivedThen(records0: map<Name, DagRecord>, ring0: seq<Name>, tops0: nat, a: seq<DagRecord>,
                     records1: map<Name, DagRecord>, ring1: seq<Name>, tops1: nat, b: seq<DagRecord>,
                     records2: map<Name, DagRecord>, ring2: seq<Name>, tops2: nat)
    requires ReceivedEach(records0, ring0, tops0, a, records1, ring1, tops1)
    requires ReceivedEach(records1, ring1, tops1, b, records2, ring2, tops2)
    ensures ReceivedEach(records0, ring0, tops0, a + b, records2, ring2, tops2)
  {
    StoreEachAppend(records0, a, b);
    RingEachAppend(ring0, tops0, a, b);
  }

  /** Receiving sequence numbers `low..s-1` of `nid` and then `s` is receiving `low..s`. */
  lemma ReceivedNext(fetch: (Name, int) -> Option<Bytes>, decode: Bytes -> DagRecord, nid: Name, low: int, s: int,
                     records0: map<Name, DagRecord>, ring0: seq<Name>, tops0: nat,
                     records1: map<Name, DagRecord>, ring1: seq<Name>, tops1: nat,
                     records2: map<Name, DagRecord>, ring2: seq<Name>, tops2: nat)
    requires low <= s
    requires ReceivedEach(records0, ring0, tops0, AcceptedBelow(fetch, decode, nid, low, s), records1, ring1, tops1)
    requires ReceivedEach(records1, ring1, tops1, AcceptedRecords(fetch, decode, nid, s, s), records2, ring2, tops2)
    ensures ReceivedEach(records0, ring0, tops0, AcceptedBelow(fetch, decode, nid, low, s + 1), records2, ring2, tops2)
  {
    AcceptedRecordsSplit(fetch, decode, nid, low, s);
    ReceivedThen(records0, ring0, tops0, AcceptedRecords(fetch, decode, nid, low, s - 1),
                 records1, ring1, tops1, AcceptedRecords(fetch, decode, nid, s, s),
                 records2, ring2, tops2);
  }

  /**
   * The key/value record store, in memory: writing overwrites, reading an
   * absent name gives `None`.
   */
  class RecordStorage {
    var records: map<Name, DagRecord>

    /** Every record is stored under its own name. */
    ghost predicate Consistent()
      reads this
    {
      forall n :: n in records ==> records[n].name == n
    }

    constructor ()
      ensures records == map[]
    {
      records := map[];
    }

    /** `store_record`: a later write under the same name overwrites. */
    method StoreRecord(name: Name, rec: DagRecord)
      modifies this
      ensures records == old(records)[name := rec]
      ensures GetRecord(name) == Some(rec)
      ensures forall n :: n != name ==> GetRecord(n) == old(GetRecord(n))
    {
      records := records[name := rec];
    }

    /** `get_record`: the record stored under `name`, `None` when there is none. */
    function GetRecord(name: Name): (r: Option<DagRecord>)
      reads this
      ensures r.Some? <==> name in records
      ensures r.Some? ==> r.value == records[name]
    {
      if name in records then Some(records[name]) else None
    }
  }

  class Logger {
    const nodePrefix: Name
    const storage: RecordStorage
    const hash: DagRecord -> Hash

    /** The last record this logger produced. */
    var lastRecordName: Option<Name>
    /** Recently received record names, a ring as long as the genesis list. */
    var lastNames: seq<Name>
    /** The next ring slot to overwrite. */
    var lastNameTops: nat
    /** Records received whose verification is still waiting on an ancestor. */
    var noPrevRecords: set<Name>
    /** `(missing ancestor, waiting record)` pairs. */
    var waitingReferencedRecords: seq<Pair>

    ghost predicate Valid()
      reads this, storage
    {
      && storage.Consistent()
      && |lastNames| == NumRecordLinks
      && lastNameTops < |lastNames|
      && (forall n :: n in lastNames ==> n in storage.records)
      && (lastRecordName.Some? ==> lastRecordName.value in storage.records)
      && (forall pair :: pair in waitingReferencedRecords ==> pair.1 in storage.records)
    }

    /** The acyclicity the verification cascade needs: stored records are ranked. */
    ghost predicate StoreRanked(rank: Name -> nat)
      reads storage
    {
      forall n :: n in storage.records ==> Ranked(rank, storage.records[n])
    }

    /** Every waiting record ranks below the ancestor it waits for. */
    ghost predicate WaitingRanked(rank: Name -> nat)
      reads this
    {
      forall pair :: pair in waitingReferencedRecords ==> rank(pair.1) < rank(pair.0)
    }

    /**
     * Starts a logger on `storage`: one genesis record per link slot is stored and
     * the tip ring holds exactly their names.
     */
    constructor (nodePrefix: Name, storage: RecordStorage, hash: DagRecord -> Hash, genesisName: nat -> Name)
      requires storage.Consistent()
      modifies storage
      ensures Valid()
      ensures this.nodePrefix == nodePrefix && this.storage == storage && this.hash == hash
      ensures lastNames == [genesisName(0), genesisName(1)] && lastNameTops == 0
      ensures forall n :: n in lastNames ==> storage.records[n] == Genesis(n)
      ensures storage.records == Seeded(old(storage.records), genesisName, NumRecordLinks)
      ensures lastRecordName == None && noPrevRecords == {} && waitingReferencedRecords == []
    {
      this.nodePrefix := nodePrefix;
      this.storage := storage;
      this.hash := hash;
      lastRecordName := None;
      lastNames := [];
      lastNameTops := 0;
      noPrevRecords := {};
      waitingReferencedRecords := [];
      new;
      for i := 0 to NumRecordLinks
        invariant |lastNames| == i
        invariant forall j :: 0 <= j < i ==> lastNames[j] == genesisName(j)
        invariant storage.records == Seeded(old(storage.records), genesisName, i)
        invariant storage.Consistent()
        invariant forall n :: n in lastNames ==> n in storage.records
        invariant lastRecordName == None && lastNameTops == 0
        invariant noPrevRecords == {} && waitingReferencedRecords == []
      {
        var genRec := Genesis(genesisName(i));
        storage.StoreRecord(genRec.name, genRec);
        lastNames := lastNames + [genRec.name];
      }
      assert genesisName(1) == lastNames[1];
    }

    /** The continuity link: the logger's own previous record, if any. */
    function Continuity(): (r: seq<Name>)
      reads this
    {
      if lastRecordName.Some? then [lastRecordName.value] else []
    }

    /** The ring's names that are not waiting for verification, in ring order. */
    function Candidates(): seq<Name>
      reads this
    {
      Without(lastNames, noPrevRecords)
    }

    /** Every pointer names a stored record and is paired with that record's hash. */
    ghost predicate HashedLinks(ps: seq<Name>, hs: seq<Hash>)
      reads this, storage
    {
      && |hs| == |ps|
      && forall i :: 0 <= i < |ps| ==> ps[i] in storage.records && hs[i] == hash(storage.records[ps[i]])
    }

    /** The ring's names, in any shuffled order, all name stored records. */
    lemma CandidatesStored(shuffle: seq<Name> -> seq<Name>)
      requires Valid()
      requires IsShuffle(shuffle)
      ensures forall p :: p in shuffle(Candidates()) ==> p in storage.records
    {
      WithoutMembers(lastNames, noPrevRecords);
      ShuffleKeepsElements(shuffle, Candidates());
    }

    /**
     * `create_record`: a new record named after this node and the event. Its
     * first pointer is the node's previous record when there is one; the rest
     * are taken in shuffled order from the ring's names not waiting for
     * verification, until the record has `NumRecordLinks` pointers. Each pointer
     * carries the hash of the record stored under it.
     */
    method CreateRecord(logEvent: string, eventName: Name, shuffle: seq<Name> -> seq<Name>) returns (rec: DagRecord)
      requires Valid()
      requires IsShuffle(shuffle)
      ensures rec.name == RecordName(nodePrefix, eventName) && rec.logEvent == logEvent && !rec.genesis
      ensures rec.pointers == Continuity() + Take(shuffle(Candidates()), NumRecordLinks - |Continuity()|)
      ensures |rec.pointers| <= NumRecordLinks
      ensures lastRecordName.Some? ==> |rec.pointers| > 0 && rec.pointers[0] == lastRecordName.value
      ensures HashedLinks(rec.pointers, rec.pointerHashes)
    {
      var pointers: seq<Name> := [];
      var pointerHashes: seq<Hash> := [];
      if lastRecordName.Some? {
        pointers := [lastRecordName.value];
        pointerHashes := [hash(storage.records[lastRecordName.value])];
        assert pointers[..0] == [];
      }
      var recordList := shuffle(Candidates());
      CandidatesStored(shuffle);
      pointers, pointerHashes := AddLinks(pointers, pointerHashes, recordList);
      TakeMembers(recordList, NumRecordLinks - |Continuity()|);
      rec := DagRecord(RecordName(nodePrefix, eventName), false, logEvent, pointers, pointerHashes);
    }

    /**
     * The pointer loop of `create_record`: appends the names of `recordList` in
     * order, each with the hash of the record stored under it, and stops once
     * there are `NumRecordLinks` pointers or the list runs out.
     */
    method AddLinks(pointers0: seq<Name>, hashes0: seq<Hash>, recordList: seq<Name>)
      returns (pointers: seq<Name>, pointerHashes: seq<Hash>)
      requires |pointers0| < NumRecordLinks
      requires HashedLinks(pointers0, hashes0)
      requires forall p :: p in recordList ==> p in storage.records
      ensures pointers == pointers0 + Take(recordList, NumRecordLinks - |pointers0|)
      ensures HashedLinks(pointers, pointerHashes)
    {
      pointers, pointerHashes := pointers0, hashes0;
      var i := 0;
      while i < |recordList| && |pointers| < NumRecordLinks
        invariant 0 <= i <= |recordList| && |pointers0| + i <= NumRecordLinks
        invariant pointers == pointers0 + recordList[..i]
        invariant HashedLinks(pointers, pointerHashes)
      {
        var tailRec := recordList[i];
        assert recordList[..i + 1] == recordList[..i] + [tailRec];
        pointerHashes := pointerHashes + [hash(storage.records[tailRec])];
        pointers := pointers + [tailRec];
        i := i + 1;
      }
      TakeIsPrefix(recordList, NumRecordLinks - |pointers0|);
      assert i == if |recordList| < NumRecordLinks - |pointers0| then |recordList| else NumRecordLinks - |pointers0|;
    }

    /**
     * `receive_log_event`: builds a record for the event, stores it under its
     * name and remembers it as this node's last record. The record is returned
     * as the payload published to the records group.
     */
    method ReceiveLogEvent(content: string, dataName: Name, shuffle: seq<Name> -> seq<Name>) returns (published: DagRecord)
      requires Valid()
      requires IsShuffle(shuffle)
      modifies this`lastRecordName, storage
      ensures Valid()
      ensures published.name == RecordName(nodePrefix, dataName) && published.logEvent == content
      ensures storage.records == old(storage.records)[published.name := published]
      ensures lastRecordName == Some(published.name)
      ensures |published.pointers| <= NumRecordLinks
      ensures old(lastRecordName).Some? ==> |published.pointers| > 0 && published.pointers[0] == old(lastRecordName).value
    {
      published := CreateRecord(content, dataName, shuffle);
      storage.StoreRecord(published.name, published);
      lastRecordName := Some(published.name);
    }

    /** The pointer scan of `verify_previous_record`. */
    method PendMissingAncestors(rec: DagRecord)
      modifies this`noPrevRecords, this`waitingReferencedRecords
      ensures waitingReferencedRecords == old(waitingReferencedRecords)
                + Pended(rec.pointers, rec.name, old(noPrevRecords), storage.records.Keys)
      ensures noPrevRecords == old(noPrevRecords)
                + (if Pended(rec.pointers, rec.name, old(noPrevRecords), storage.records.Keys) == [] then {} else {rec.name})
    {
      for i := 0 to |rec.pointers|
        invariant waitingReferencedRecords == old(waitingReferencedRecords)
                    + Pended(rec.pointers[..i], rec.name, old(noPrevRecords), storage.records.Keys)
        invariant noPrevRecords == old(noPrevRecords)
                    + (if Pended(rec.pointers[..i], rec.name, old(noPrevRecords), storage.records.Keys) == [] then {} else {rec.name})
      {
        assert rec.pointers[..i + 1][..i] == rec.pointers[..i];
        var ptr := rec.pointers[i];
        if ptr in noPrevRecords || storage.GetRecord(ptr).None? {
          waitingReferencedRecords := waitingReferencedRecords + [(ptr, rec.name)];
          noPrevRecords := noPrevRecords + {rec.name};
        }
      }
      assert rec.pointers[..|rec.pointers|] == rec.pointers;
    }

    /** The partition of `verify_previous_record`: releases the waiters of `name`. */
    method ReleaseWaiters(name: Name) returns (waitingList: seq<Name>)
      modifies this`noPrevRecords, this`waitingReferencedRecords
      ensures waitingList == Released(old(waitingReferencedRecords), name)
      ensures waitingReferencedRecords == Kept(old(waitingReferencedRecords), name)
      ensures forall n :: n in noPrevRecords <==> n in old(noPrevRecords) && n !in waitingList
    {
      waitingList := [];
      var wrrCopy := waitingReferencedRecords;
      waitingReferencedRecords := [];
      for i := 0 to |wrrCopy|
        invariant waitingList == Released(wrrCopy[..i], name)
        invariant waitingReferencedRecords == Kept(wrrCopy[..i], name)
        invariant forall n :: n in noPrevRecords <==> n in old(noPrevRecords) && n !in waitingList
      {
        assert wrrCopy[..i + 1][..i] == wrrCopy[..i];
        var pair := wrrCopy[i];
        if pair.0 == name {
          waitingList := waitingList + [pair.1];
          noPrevRecords := noPrevRecords - {pair.1};
        } else {
          waitingReferencedRecords := waitingReferencedRecords + [pair];
        }
      }
      assert wrrCopy[..|wrrCopy|] == wrrCopy;
    }

    /**
     * `verify_previous_record`: pends `rec` on each pointer that is missing or
     * itself pending, releases every record waiting on `rec` and verifies each
     * released record again, recursively. `root` is the received record, which
     * is not stored yet while the cascade runs; `rank` orders the records
     * involved so that every pointer leads to a higher rank. `verified` is the
     * set of records the cascade verified: `rec` and every record released,
     * at any depth.
     */
    method VerifyPreviousRecord(rec: DagRecord, ghost rank: Name -> nat, ghost root: Name)
      returns (ghost verified: set<Name>)
      requires storage.Consistent()
      requires Ranked(rank, rec)
      requires rec.name == root ||
               (rec.name in storage.records && storage.records[rec.name] == rec && rank(rec.name) < rank(root))
      requires StoreRanked(rank) && WaitingRanked(rank)
      requires forall pair :: pair in waitingReferencedRecords ==> pair.1 in storage.records || pair.1 == root
      modifies this`noPrevRecords, this`waitingReferencedRecords
      decreases rank(rec.name), 2
      ensures WaitingRanked(rank)
      ensures forall pair :: pair in waitingReferencedRecords ==> pair.1 in storage.records || pair.1 == root
      ensures rec.name in verified
      ensures forall v :: v in verified && v != rec.name ==> v in storage.records && rank(v) < rank(rec.name)
      // every record that waited on a verified record was verified again, transitively
      ensures Reverified(old(waitingReferencedRecords), old(noPrevRecords), waitingReferencedRecords, noPrevRecords, verified)
      // a record with a missing or pending ancestor ends up pending on it
      ensures forall p :: p in rec.pointers && (p in old(noPrevRecords) || p !in storage.records) ==>
                (p, rec.name) in waitingReferencedRecords && rec.name in noPrevRecords
      // ... and on nothing else, and it is pending only then
      ensures forall p :: (p, rec.name) in waitingReferencedRecords <==>
                (p, rec.name) in old(waitingReferencedRecords) || p in Missing(rec.pointers, old(noPrevRecords), storage.records.Keys)
      ensures rec.name in noPrevRecords <==>
                rec.name in old(noPrevRecords) || Missing(rec.pointers, old(noPrevRecords), storage.records.Keys) != []
      // every other verified record ends up pending on each of its unstored ancestors
      ensures forall v :: v in verified && v != rec.name ==>
                PendingOnMissing(storage.records, waitingReferencedRecords, noPrevRecords, old(noPrevRecords) - verified, v)
      // a waiter released while `rec` is unstored or pending is pending on `rec` again
      ensures forall w ::
                (&& w in Released(old(waitingReferencedRecords), rec.name)
                 && (|| rec.name !in storage.records || rec.name in old(noPrevRecords)
                     || Pended(rec.pointers, rec.name, old(noPrevRecords), storage.records.Keys) != [])
                 && w in storage.records && rec.name in storage.records[w].pointers)
                ==> (rec.name, w) in waitingReferencedRecords
    {
      var waitingList := PendAndRelease(rec, rank, root);
      ghost var pending := noPrevRecords;
      ghost var released := VerifyReleased(waitingList, rec.name, rank, root);
      verified := released + {rec.name};
      forall v | v in released
        ensures PendingOnMissing(storage.records, waitingReferencedRecords, noPrevRecords, old(noPrevRecords) - verified, v)
      {
        PendingStays(storage.records, waitingReferencedRecords, noPrevRecords, waitingReferencedRecords, noPrevRecords,
                     {}, pending - released, old(noPrevRecords) - verified, v);
      }
    }

    /**
     * The two loops of `verify_previous_record`: pends `rec` on its missing or
     * pending ancestors, then takes every record waiting on `rec` off the list
     * and out of the pending set.
     */
    method PendAndRelease(rec: DagRecord, ghost rank: Name -> nat, ghost root: Name)
      returns (waitingList: seq<Name>)
      requires Ranked(rank, rec)
      requires rec.name == root || (rec.name in storage.records && rank(rec.name) < rank(root))
      requires WaitingRanked(rank)
      requires forall pair :: pair in waitingReferencedRecords ==> pair.1 in storage.records || pair.1 == root
      modifies this`noPrevRecords, this`waitingReferencedRecords
      ensures WaitingRanked(rank)
      ensures forall pair :: pair in waitingReferencedRecords ==> pair.1 in storage.records || pair.1 == root
      ensures waitingList == Released(old(waitingReferencedRecords), rec.name)
      ensures forall w :: w in waitingList ==> w in storage.records && rank(w) < rank(rec.name)
      ensures forall pair :: pair in old(waitingReferencedRecords) ==> pair in waitingReferencedRecords || pair.0 == rec.name
      ensures forall pair :: pair in old(waitingReferencedRecords) && pair.0 == rec.name ==> pair.1 in waitingList
      ensures forall n :: n in old(noPrevRecords) && n !in noPrevRecords ==> n in waitingList
      ensures forall p :: p in rec.pointers && (p in old(noPrevRecords) || p !in storage.records) ==>
                (p, rec.name) in waitingReferencedRecords && rec.name in noPrevRecords
      ensures (|| rec.name in old(noPrevRecords)
               || Pended(rec.pointers, rec.name, old(noPrevRecords), storage.records.Keys) != [])
              ==> rec.name in noPrevRecords
      // nothing else is added: only pairs of `rec` on its missing ancestors, and `rec` itself
      ensures forall pair :: pair in waitingReferencedRecords ==>
                || pair in old(waitingReferencedRecords)
                || (pair.1 == rec.name && pair.0 in Missing(rec.pointers, old(noPrevRecords), storage.records.Keys))
      ensures forall p :: p in Missing(rec.pointers, old(noPrevRecords), storage.records.Keys) ==>
                (p, rec.name) in waitingReferencedRecords
      ensures forall n :: n in noPrevRecords ==> n in old(noPrevRecords) || n == rec.name
      ensures rec.name in noPrevRecords <==>
                rec.name in old(noPrevRecords) || Missing(rec.pointers, old(noPrevRecords), storage.records.Keys) != []
    {
      ghost var before := waitingReferencedRecords;
      ghost var added := Pended(rec.pointers, rec.name, noPrevRecords, storage.records.Keys);
      PendMissingAncestors(rec);
      PendThenRelease(before, rec.pointers, rec.name, old(noPrevRecords), storage.records.Keys);
      PendedMembers(rec.pointers, rec.name, old(noPrevRecords), storage.records.Keys);
      PendedExactly(rec.pointers, rec.name, old(noPrevRecords), storage.records.Keys);
      ReleasedMembers(before, rec.name);
      KeptMembers(before + added, rec.name);
      waitingList := ReleaseWaiters(rec.name);
    }

    /**
     * The tail of `verify_previous_record`: verifies each released waiter of
     * `name` in turn. `verified` is the set of records verified on the way.
     */
    method VerifyReleased(waitingList: seq<Name>, name: Name, ghost rank: Name -> nat, ghost root: Name)
      returns (ghost verified: set<Name>)
      requires storage.Consistent()
      requires forall w :: w in waitingList ==> w in storage.records && rank(w) < rank(name)
      requires name == root || rank(name) < rank(root)
      requires StoreRanked(rank) && WaitingRanked(rank)
      requires forall pair :: pair in waitingReferencedRecords ==> pair.1 in storage.records || pair.1 == root
      modifies this`noPrevRecords, this`waitingReferencedRecords
      decreases rank(name), 1
      ensures WaitingRanked(rank)
      ensures forall pair :: pair in waitingReferencedRecords ==> pair.1 in storage.records || pair.1 == root
      ensures forall w :: w in waitingList ==> w in verified
      ensures forall v :: v in verified ==> v in storage.records && rank(v) < rank(name)
      ensures Reverified(old(waitingReferencedRecords), old(noPrevRecords), waitingReferencedRecords, noPrevRecords, verified)
      ensures forall v :: v in verified ==>
                PendingOnMissing(storage.records, waitingReferencedRecords, noPrevRecords, old(noPrevRecords) - verified, v)
      ensures forall w ::
                (&& w in waitingList && (name !in storage.records || name in old(noPrevRecords))
                 && name in storage.records[w].pointers)
                ==> (name, w) in waitingReferencedRecords
    {
      verified := {};
      for i := 0 to |waitingList|
        invariant WaitingRanked(rank)
        invariant forall pair :: pair in waitingReferencedRecords ==> pair.1 in storage.records || pair.1 == root
        invariant forall w :: w in waitingList[..i] ==> w in verified
        invariant forall v :: v in verified ==> v in storage.records && rank(v) < rank(name)
        invariant Reverified(old(waitingReferencedRecords), old(noPrevRecords), waitingReferencedRecords, noPrevRecords, verified)
        invariant forall v :: v in verified ==>
                    PendingOnMissing(storage.records, waitingReferencedRecords, noPrevRecords, old(noPrevRecords) - verified, v)
        invariant name in old(noPrevRecords) ==> name in noPrevRecords
        invariant forall w ::
                    (&& w in waitingList[..i] && (name !in storage.records || name in old(noPrevRecords))
                     && name in storage.records[w].pointers)
                    ==> (name, w) in waitingReferencedRecords
      {
        assert waitingList[..i + 1] == waitingList[..i] + [waitingList[i]];
        verified := VerifyWaiter(waitingList[i], name, rank, root, old(waitingReferencedRecords), old(noPrevRecords), verified);
      }
      assert waitingList[..|waitingList|] == waitingList;
    }

    /**
     * One turn of the loop of `verify_previous_record`: verifies waiter `w` of
     * `name` again. `verified` holds the records the cascade verified since the
     * waiting list was `w0` and the pending set `n0`; `verified'` adds the ones
     * this turn verified.
     */
    method VerifyWaiter(w: Name, name: Name, ghost rank: Name -> nat, ghost root: Name,
                        ghost w0: seq<Pair>, ghost n0: set<Name>, ghost verified: set<Name>)
      returns (ghost verified': set<Name>)
      requires storage.Consistent()
      requires w in storage.records && rank(w) < rank(name)
      requires name == root || rank(name) < rank(root)
      requires StoreRanked(rank) && WaitingRanked(rank)
      requires forall pair :: pair in waitingReferencedRecords ==> pair.1 in storage.records || pair.1 == root
      requires forall v :: v in verified ==> v in storage.records && rank(v) < rank(name)
      requires Reverified(w0, n0, waitingReferencedRecords, noPrevRecords, verified)
      requires forall v :: v in verified ==>
                 PendingOnMissing(storage.records, waitingReferencedRecords, noPrevRecords, n0 - verified, v)
      modifies this`noPrevRecords, this`waitingReferencedRecords
      decreases rank(name), 0
      ensures WaitingRanked(rank)
      ensures forall pair :: pair in waitingReferencedRecords ==> pair.1 in storage.records || pair.1 == root
      ensures w in verified' && verified <= verified'
      ensures forall v :: v in verified' ==> v in storage.records && rank(v) < rank(name)
      ensures Reverified(w0, n0, waitingReferencedRecords, noPrevRecords, verified')
      ensures forall v :: v in verified' ==>
                PendingOnMissing(storage.records, waitingReferencedRecords, noPrevRecords, n0 - verified', v)
      ensures forall pair :: pair in old(waitingReferencedRecords) && pair.0 == name ==> pair in waitingReferencedRecords
      ensures name in old(noPrevRecords) ==> name in noPrevRecords
      ensures (name !in storage.records || name in old(noPrevRecords)) && name in storage.records[w].pointers ==>
                (name, w) in waitingReferencedRecords
    {
      var next := storage.records[w];
      ghost var w1, n1 := waitingReferencedRecords, noPrevRecords;
      ghost var sub := VerifyPreviousRecord(next, rank, root);
      ReverifiedThen(w0, n0, w1, n1, verified, waitingReferencedRecords, noPrevRecords, sub);
      verified' := verified + sub;
      forall v | v in verified'
        ensures PendingOnMissing(storage.records, waitingReferencedRecords, noPrevRecords, n0 - verified', v)
      {
        if v in sub {
          PendingStays(storage.records, waitingReferencedRecords, noPrevRecords, waitingReferencedRecords, noPrevRecords,
                       {}, n1 - sub, n0 - verified', v);
        } else {
          PendingStays(storage.records, w1, n1, waitingReferencedRecords, noPrevRecords,
                       sub, n0 - verified, n0 - verified', v);
        }
      }
    }

    /**
     * `receive_records`: checks the pointer count, verifies the record, stores it
     * and overwrites the oldest ring slot with its name. When the check raises,
     * nothing changes.
     */
    method ReceiveRecords(rec: DagRecord, ghost rank: Name -> nat)
      returns (o: Outcome<RecordError>, ghost verified: set<Name>)
      requires Valid()
      requires Accepted(rec) ==> Ranked(rank, rec)
      requires StoreRanked(rank) && WaitingRanked(rank)
      modifies this`noPrevRecords, this`waitingReferencedRecords, this`lastNames, this`lastNameTops, storage
      ensures Valid() && StoreRanked(rank) && WaitingRanked(rank)
      ensures o == Pass <==> |rec.pointers| == NumRecordLinks && Distinct(rec.pointers)
      ensures o.Fail? ==> o.error == (if |rec.pointers| != NumRecordLinks then IncorrectPointerCount else DuplicatePointer)
      ensures o.Fail? ==>
                && storage.records == old(storage.records) && lastNames == old(lastNames)
                && lastNameTops == old(lastNameTops) && noPrevRecords == old(noPrevRecords)
                && waitingReferencedRecords == old(waitingReferencedRecords)
      ensures o.Pass? ==> storage.records == old(storage.records)[rec.name := rec]
      ensures o.Pass? ==> |lastNames| == |old(lastNames)| && lastNames == old(lastNames)[old(lastNameTops) := rec.name]
      ensures o.Pass? ==> lastNameTops == (old(lastNameTops) + 1) % |lastNames|
      ensures o.Pass? ==>
                Cascaded(old(storage.records), rank, rec, old(waitingReferencedRecords), old(noPrevRecords),
                         waitingReferencedRecords, noPrevRecords, verified)
    {
      ghost var records0, w0, n0 := storage.records, waitingReferencedRecords, noPrevRecords;
      o := CheckPointers(rec.pointers, NumRecordLinks);
      verified := {};
      if o.Pass? {
        verified := AcceptRecord(rec, rank);
        assert Cascaded(records0, rank, rec, w0, n0, waitingReferencedRecords, noPrevRecords, verified);
      }
    }

    /**
     * The part of `receive_records` after the pointer check has passed.
     * `verified` is the set of records the cascade verified: `rec` and every
     * stored record released on the way, at any depth. Each of the latter ends
     * up pending on every ancestor missing before `rec` was stored.
     */
    method AcceptRecord(rec: DagRecord, ghost rank: Name -> nat) returns (ghost verified: set<Name>)
      requires Valid()
      requires Ranked(rank, rec) && StoreRanked(rank) && WaitingRanked(rank)
      modifies this`noPrevRecords, this`waitingReferencedRecords, this`lastNames, this`lastNameTops, storage
      ensures Valid() && StoreRanked(rank) && WaitingRanked(rank)
      ensures storage.records == old(storage.records)[rec.name := rec]
      ensures |lastNames| == |old(lastNames)| && lastNames == old(lastNames)[old(lastNameTops) := rec.name]
      ensures lastNameTops == (old(lastNameTops) + 1) % |lastNames|
      ensures Cascaded(old(storage.records), rank, rec, old(waitingReferencedRecords), old(noPrevRecords),
                       waitingReferencedRecords, noPrevRecords, verified)
    {
      ghost var records0 := storage.records;
      verified := VerifyReceived(rec, rank);
      ghost var w1, n1 := waitingReferencedRecords, noPrevRecords;
      StoreReceived(rec, rank);
      assert waitingReferencedRecords == w1 && noPrevRecords == n1;
    }

    /** The `verify_previous_record` call of `receive_records`, on the record not stored yet. */
    method VerifyReceived(rec: DagRecord, ghost rank: Name -> nat) returns (ghost verified: set<Name>)
      requires Valid()
      requires Ranked(rank, rec) && StoreRanked(rank) && WaitingRanked(rank)
      modifies this`noPrevRecords, this`waitingReferencedRecords
      ensures WaitingRanked(rank)
      ensures forall pair :: pair in waitingReferencedRecords ==> pair.1 in storage.records || pair.1 == rec.name
      ensures Cascaded(storage.records, rank, rec, old(waitingReferencedRecords), old(noPrevRecords),
                       waitingReferencedRecords, noPrevRecords, verified)
    {
      verified := VerifyPreviousRecord(rec, rank, rec.name);
      CascadedIntro(storage.records, rank, rec, old(waitingReferencedRecords), old(noPrevRecords),
                    waitingReferencedRecords, noPrevRecords, verified);
    }

    /** The end of `receive_records`: stores `rec` and overwrites the oldest ring slot with its name. */
    method StoreReceived(rec: DagRecord, ghost rank: Name -> nat)
      requires storage.Consistent() && |lastNames| == NumRecordLinks && lastNameTops < |lastNames|
      requires forall n :: n in lastNames ==> n in storage.records
      requires lastRecordName.Some? ==> lastRecordName.value in storage.records
      requires forall pair :: pair in waitingReferencedRecords ==> pair.1 in storage.records || pair.1 == rec.name
      requires Ranked(rank, rec) && StoreRanked(rank)
      modifies this`lastNames, this`lastNameTops, storage
      ensures Valid() && StoreRanked(rank)
      ensures storage.records == old(storage.records)[rec.name := rec]
      ensures |lastNames| == |old(lastNames)| && lastNames == old(lastNames)[old(lastNameTops) := rec.name]
      ensures lastNameTops == (old(lastNameTops) + 1) % |lastNames|
    {
      storage.StoreRecord(rec.name, rec);
      lastNames := lastNames[lastNameTops := rec.name];
      lastNameTops := (lastNameTops + 1) % |lastNames|;
    }

    /** The name of the record built for the log event of sequence number `seqno` of `nid`. */
    function BuiltName(dataName: (Name, int) -> Name, nid: Name, seqno: int): Name
    {
      RecordName(nodePrefix, dataName(nid, seqno))
    }

    /** The names of the records built for the non-empty payloads of sequence numbers `low..high` of `nid`. */
    function RangeBuilt(fetch: (Name, int) -> Option<string>, dataName: (Name, int) -> Name,
                        nid: Name, low: int, high: int): set<Name>
      decreases high - low
    {
      if low > high then {}
      else
        RangeBuilt(fetch, dataName, nid, low, high - 1)
          + (if Delivers(fetch(nid, high)) then {BuiltName(dataName, nid, high)} else {})
    }

    /** This node's last record after building records for `low..high` of `nid`, starting from `previous`. */
    function RangeLast(previous: Option<Name>, fetch: (Name, int) -> Option<string>, dataName: (Name, int) -> Name,
                       nid: Name, low: int, high: int): Option<Name>
      decreases high - low
    {
      if low > high then previous
      else if Delivers(fetch(nid, high)) then Some(BuiltName(dataName, nid, high))
      else RangeLast(previous, fetch, dataName, nid, low, high - 1)
    }

    /**
     * The log event each record built for `low..high` of `nid` carries: the
     * payload of the last sequence number that builds a record of that name.
     */
    function RangeEvents(fetch: (Name, int) -> Option<string>, dataName: (Name, int) -> Name,
                         nid: Name, low: int, high: int): map<Name, string>
      decreases high - low
    {
      if low > high then map[]
      else
        var before := RangeEvents(fetch, dataName, nid, low, high - 1);
        if Delivers(fetch(nid, high)) then before[BuiltName(dataName, nid, high) := fetch(nid, high).value] else before
    }

    /** The payloads are recorded for exactly the names built. */
    lemma {:induction false} RangeEventsKeys(fetch: (Name, int) -> Option<string>, dataName: (Name, int) -> Name,
                                             nid: Name, low: int, high: int)
      ensures RangeEvents(fetch, dataName, nid, low, high).Keys == RangeBuilt(fetch, dataName, nid, low, high)
      decreases high - low
    {
      if low <= high {
        RangeEventsKeys(fetch, dataName, nid, low, high - 1);
      }
    }

    /**
     * A record built for sequence number `s` carries its payload unless a later
     * sequence number of the range builds a record of the same name.
     */
    lemma {:induction false} RangeEventsLastWins(fetch: (Name, int) -> Option<string>, dataName: (Name, int) -> Name,
                                                 nid: Name, low: int, high: int, s: int)
      requires low <= s <= high && Delivers(fetch(nid, s))
      requires forall t :: s < t <= high && Delivers(fetch(nid, t)) ==> BuiltName(dataName, nid, t) != BuiltName(dataName, nid, s)
      ensures var events := RangeEvents(fetch, dataName, nid, low, high);
              BuiltName(dataName, nid, s) in events && events[BuiltName(dataName, nid, s)] == fetch(nid, s).value
      decreases high - low
    {
      if s < high {
        RangeEventsLastWins(fetch, dataName, nid, low, high - 1, s);
      }
    }

    /** A record is built for a range exactly when some sequence number in it delivers a non-empty payload. */
    lemma {:induction false} RangeBuiltMembers(fetch: (Name, int) -> Option<string>, dataName: (Name, int) -> Name,
                                               nid: Name, low: int, high: int, n: Name)
      ensures n in RangeBuilt(fetch, dataName, nid, low, high) <==>
                exists s :: low <= s <= high && Delivers(fetch(nid, s)) && n == BuiltName(dataName, nid, s)
      decreases high - low
    {
      if low <= high {
        RangeBuiltMembers(fetch, dataName, nid, low, high - 1, n);
        if Delivers(fetch(nid, high)) && n == BuiltName(dataName, nid, high) {
          assert low <= high <= high;
        }
      }
    }

    /** A range in which nothing delivers leaves the last record as it was. */
    lemma {:induction false} RangeLastUnchanged(previous: Option<Name>, fetch: (Name, int) -> Option<string>,
                                                dataName: (Name, int) -> Name, nid: Name, low: int, high: int)
      requires forall s :: low <= s <= high ==> !Delivers(fetch(nid, s))
      ensures RangeLast(previous, fetch, dataName, nid, low, high) == previous
      decreases high - low
    {
      if low <= high {
        RangeLastUnchanged(previous, fetch, dataName, nid, low, high - 1);
      }
    }

    /** After a range the last record is the one built for the highest sequence number that delivered. */
    lemma {:induction false} RangeLastNewest(previous: Option<Name>, fetch: (Name, int) -> Option<string>,
                                             dataName: (Name, int) -> Name, nid: Name, low: int, high: int, s: int)
      requires low <= s <= high && Delivers(fetch(nid, s))
      requires forall t :: s < t <= high ==> !Delivers(fetch(nid, t))
      ensures RangeLast(previous, fetch, dataName, nid, low, high) == Some(BuiltName(dataName, nid, s))
      decreases high - low
    {
      if s < high {
        RangeLastNewest(previous, fetch, dataName, nid, low, high - 1, s);
      }
    }

    /** The names of the records built for every missing range, range after range. */
    function AllBuilt(fetch: (Name, int) -> Option<string>, dataName: (Name, int) -> Name,
                      missing: seq<MissingData>): set<Name>
    {
      if missing == [] then {}
      else
        var m := missing[|missing| - 1];
        AllBuilt(fetch, dataName, missing[..|missing| - 1]) + RangeBuilt(fetch, dataName, m.nid, m.lowSeqno, m.highSeqno)
    }

    /** The log event each record built for the missing ranges carries: a later range's record wins. */
    function AllEvents(fetch: (Name, int) -> Option<string>, dataName: (Name, int) -> Name,
                       missing: seq<MissingData>): map<Name, string>
    {
      if missing == [] then map[]
      else
        var m := missing[|missing| - 1];
        AllEvents(fetch, dataName, missing[..|missing| - 1]) + RangeEvents(fetch, dataName, m.nid, m.lowSeqno, m.highSeqno)
    }

    /** The payloads are recorded for exactly the names built, over all ranges. */
    lemma {:induction false} AllEventsKeys(fetch: (Name, int) -> Option<string>, dataName: (Name, int) -> Name,
                                           missing: seq<MissingData>)
      ensures AllEvents(fetch, dataName, missing).Keys == AllBuilt(fetch, dataName, missing)
    {
      if missing != [] {
        var m := missing[|missing| - 1];
        AllEventsKeys(fetch, dataName, missing[..|missing| - 1]);
        RangeEventsKeys(fetch, dataName, m.nid, m.lowSeqno, m.highSeqno);
      }
    }

    /** This node's last record after every missing range, starting from `previous`. */
    function AllLast(previous: Option<Name>, fetch: (Name, int) -> Option<string>, dataName: (Name, int) -> Name,
                     missing: seq<MissingData>): Option<Name>
    {
      if missing == [] then previous
      else
        var m := missing[|missing| - 1];
        RangeLast(AllLast(previous, fetch, dataName, missing[..|missing| - 1]), fetch, dataName, m.nid, m.lowSeqno, m.highSeqno)
    }

    /**
     * One iteration of `on_missing_events`: fetch sequence number `seqno` of
     * `nid` and build, store and publish a record if its payload is non-empty.
     */
    method OnMissingEvent(nid: Name, low: int, seqno: int, fetch: (Name, int) -> Option<string>,
                          dataName: (Name, int) -> Name, shuffle: seq<Name> -> seq<Name>,
                          ghost records0: map<Name, DagRecord>, ghost keys: set<Name>, ghost previous: Option<Name>)
      requires Valid() && IsShuffle(shuffle) && low <= seqno
      requires storage.records - RangeBuilt(fetch, dataName, nid, low, seqno - 1)
               == records0 - RangeBuilt(fetch, dataName, nid, low, seqno - 1)
      requires storage.records.Keys == keys + RangeBuilt(fetch, dataName, nid, low, seqno - 1)
      requires lastRecordName == RangeLast(previous, fetch, dataName, nid, low, seqno - 1)
      requires Carries(storage.records, RangeEvents(fetch, dataName, nid, low, seqno - 1))
      modifies this`lastRecordName, storage
      ensures Valid()
      ensures storage.records - RangeBuilt(fetch, dataName, nid, low, seqno)
              == records0 - RangeBuilt(fetch, dataName, nid, low, seqno)
      ensures storage.records.Keys == keys + RangeBuilt(fetch, dataName, nid, low, seqno)
      ensures lastRecordName == RangeLast(previous, fetch, dataName, nid, low, seqno)
      ensures Carries(storage.records, RangeEvents(fetch, dataName, nid, low, seqno))
      // an empty payload changes nothing; a delivered one stores one record, under its built name
      ensures !Delivers(fetch(nid, seqno)) ==> storage.records == old(storage.records)
      ensures Delivers(fetch(nid, seqno)) ==>
                var n := BuiltName(dataName, nid, seqno);
                && n in storage.records && storage.records[n].logEvent == fetch(nid, seqno).value
                && storage.records == old(storage.records)[n := storage.records[n]]
    {
      ghost var records1 := storage.records;
      ghost var built := RangeBuilt(fetch, dataName, nid, low, seqno);
      AgreeOutsideGrow(records0, records1, RangeBuilt(fetch, dataName, nid, low, seqno - 1), built);
      var contentStr := fetch(nid, seqno);
      if Delivers(contentStr) {
        var published := ReceiveLogEvent(contentStr.value, dataName(nid, seqno), shuffle);
        assert published.name == BuiltName(dataName, nid, seqno);
        assert storage.records - built == records1 - built;
      }
    }

    /**
     * One range of `on_missing_events`: fetches each sequence number from low to
     * high once, in order, and builds a record for every non-empty payload.
     */
    method OnMissingEventRange(m: MissingData, fetch: (Name, int) -> Option<string>, dataName: (Name, int) -> Name,
                               shuffle: seq<Name> -> seq<Name>)
      requires Valid() && IsShuffle(shuffle)
      modifies this`lastRecordName, storage
      ensures Valid()
      ensures storage.records.Keys == old(storage.records).Keys + RangeBuilt(fetch, dataName, m.nid, m.lowSeqno, m.highSeqno)
      ensures lastRecordName == RangeLast(old(lastRecordName), fetch, dataName, m.nid, m.lowSeqno, m.highSeqno)
      // a record no sequence number of the range builds keeps its name and value
      ensures storage.records - RangeBuilt(fetch, dataName, m.nid, m.lowSeqno, m.highSeqno)
              == old(storage.records) - RangeBuilt(fetch, dataName, m.nid, m.lowSeqno, m.highSeqno)
      // every record built carries the payload of the last sequence number that built it
      ensures Carries(storage.records, RangeEvents(fetch, dataName, m.nid, m.lowSeqno, m.highSeqno))
    {
      ghost var records0, keys, previous := storage.records, storage.records.Keys, lastRecordName;
      ghost var last := if m.highSeqno < m.lowSeqno then m.lowSeqno - 1 else m.highSeqno;
      var lowSeqno := m.lowSeqno;
      while lowSeqno <= m.highSeqno
        invariant m.lowSeqno <= lowSeqno <= last + 1
        invariant Valid()
        invariant storage.records - RangeBuilt(fetch, dataName, m.nid, m.lowSeqno, lowSeqno - 1)
                  == records0 - RangeBuilt(fetch, dataName, m.nid, m.lowSeqno, lowSeqno - 1)
        invariant storage.records.Keys == keys + RangeBuilt(fetch, dataName, m.nid, m.lowSeqno, lowSeqno - 1)
        invariant lastRecordName == RangeLast(previous, fetch, dataName, m.nid, m.lowSeqno, lowSeqno - 1)
        invariant Carries(storage.records, RangeEvents(fetch, dataName, m.nid, m.lowSeqno, lowSeqno - 1))
        decreases m.highSeqno - lowSeqno
      {
        OnMissingEvent(m.nid, m.lowSeqno, lowSeqno, fetch, dataName, shuffle, records0, keys, previous);
        lowSeqno := lowSeqno + 1;
      }
    }

    /** `on_missing_events`: the ranges one after another. */
    method OnMissingEvents(missing: seq<MissingData>, fetch: (Name, int) -> Option<string>, dataName: (Name, int) -> Name,
                           shuffle: seq<Name> -> seq<Name>)
      requires Valid() && IsShuffle(shuffle)
      modifies this`lastRecordName, storage
      ensures Valid()
      ensures storage.records.Keys == old(storage.records).Keys + AllBuilt(fetch, dataName, missing)
      ensures lastRecordName == AllLast(old(lastRecordName), fetch, dataName, missing)
      ensures storage.records - AllBuilt(fetch, dataName, missing) == old(storage.records) - AllBuilt(fetch, dataName, missing)
      ensures Carries(storage.records, AllEvents(fetch, dataName, missing))
    {
      for j := 0 to |missing|
        invariant Valid()
        invariant storage.records - AllBuilt(fetch, dataName, missing[..j])
                  == old(storage.records) - AllBuilt(fetch, dataName, missing[..j])
        invariant storage.records.Keys == old(storage.records).Keys + AllBuilt(fetch, dataName, missing[..j])
        invariant lastRecordName == AllLast(old(lastRecordName), fetch, dataName, missing[..j])
        invariant Carries(storage.records, AllEvents(fetch, dataName, missing[..j]))
      {
        assert missing[..j + 1][..j] == missing[..j];
        ghost var records1 := storage.records;
        ghost var built := AllBuilt(fetch, dataName, missing[..j + 1]);
        OnMissingEventRange(missing[j], fetch, dataName, shuffle);
        AgreeOutsideGrow(old(storage.records), records1, AllBuilt(fetch, dataName, missing[..j]), built);
        AgreeOutsideGrow(records1, storage.records,
                         RangeBuilt(fetch, dataName, missing[j].nid, missing[j].lowSeqno, missing[j].highSeqno), built);
        RangeEventsKeys(fetch, dataName, missing[j].nid, missing[j].lowSeqno, missing[j].highSeqno);
        CarriesThen(records1, storage.records, AllEvents(fetch, dataName, missing[..j]),
                    RangeEvents(fetch, dataName, missing[j].nid, missing[j].lowSeqno, missing[j].highSeqno),
                    RangeBuilt(fetch, dataName, missing[j].nid, missing[j].lowSeqno, missing[j].highSeqno));
      }
      assert missing[..|missing|] == missing;
    }

    /**
     * One turn of `on_missing_records`: fetches sequence number `seqno` of
     * `nid` and receives a non-empty payload as a record. `ok` is false when
     * the record fails the pointer check, which raises out of the task.
     */
    method OnMissingRecord(nid: Name, seqno: int, fetch: (Name, int) -> Option<Bytes>, decode: Bytes -> DagRecord,
                           ghost rank: Name -> nat)
      returns (ok: bool, ghost verified: set<Name>)
      requires Valid() && StoreRanked(rank) && WaitingRanked(rank)
      requires Delivers(fetch(nid, seqno)) && Accepted(decode(fetch(nid, seqno).value)) ==>
                 Ranked(rank, decode(fetch(nid, seqno).value))
      modifies this`noPrevRecords, this`waitingReferencedRecords, this`lastNames, this`lastNameTops, storage
      ensures Valid() && StoreRanked(rank) && WaitingRanked(rank)
      ensures ok <==> !Rejected(fetch, decode, nid, seqno)
      ensures ReceivedEach(old(storage.records), old(lastNames), old(lastNameTops), AcceptedRecords(fetch, decode, nid, seqno, seqno),
                           storage.records, lastNames, lastNameTops)
      // an empty payload or a rejected record changes nothing: `AcceptedRecords` is empty then
      ensures !ok || !Delivers(fetch(nid, seqno)) ==>
                noPrevRecords == old(noPrevRecords) && waitingReferencedRecords == old(waitingReferencedRecords)
      // an accepted record leaves the pending state `verify_previous_record` makes of it
      ensures ok && Delivers(fetch(nid, seqno)) ==>
                Cascaded(old(storage.records), rank, decode(fetch(nid, seqno).value), old(waitingReferencedRecords),
                         old(noPrevRecords), waitingReferencedRecords, noPrevRecords, verified)
    {
      AcceptedRecordsSplit(fetch, decode, nid, seqno, seqno);
      ReceivedNone(storage.records, lastNames, lastNameTops);
      var contentStr := fetch(nid, seqno);
      ok, verified := true, {};
      if Delivers(contentStr) {
        var receivedRecord := decode(contentStr.value);
        ghost var records0, w0, n0 := storage.records, waitingReferencedRecords, noPrevRecords;
        ReceivedOne(storage.records, lastNames, lastNameTops, receivedRecord);
        var o;
        o, verified := ReceiveRecords(receivedRecord, rank);
        ok := o.Pass?;
        assert ok ==> Cascaded(records0, rank, receivedRecord, w0, n0, waitingReferencedRecords, noPrevRecords, verified);
      }
    }

    /**
     * Sequence number `s` of range `m`, after `m.lowSeqno..s-1` were received
     * starting from store `records0` and ring `ring0`, `tops0`.
     */
    method OnMissingRecordNext(m: MissingData, s: int, fetch: (Name, int) -> Option<Bytes>, decode: Bytes -> DagRecord,
                               ghost rank: Name -> nat,
                               ghost records0: map<Name, DagRecord>, ghost ring0: seq<Name>, ghost tops0: nat)
      returns (o: Outcome<int>)
      requires m.lowSeqno <= s <= m.highSeqno
      requires Valid() && StoreRanked(rank) && WaitingRanked(rank)
      requires Delivers(fetch(m.nid, s)) ==>
                 Ranked(rank, decode(fetch(m.nid, s).value))
      requires NoneRejected(fetch, decode, m.nid, m.lowSeqno, s - 1)
      requires ReceivedEach(records0, ring0, tops0, AcceptedBelow(fetch, decode, m.nid, m.lowSeqno, s),
                            storage.records, lastNames, lastNameTops)
      modifies this`noPrevRecords, this`waitingReferencedRecords, this`lastNames, this`lastNameTops, storage
      ensures Valid() && StoreRanked(rank) && WaitingRanked(rank)
      ensures o.Pass? ==> NoneRejected(fetch, decode, m.nid, m.lowSeqno, s)
      ensures o.Pass? ==> ReceivedEach(records0, ring0, tops0, AcceptedBelow(fetch, decode, m.nid, m.lowSeqno, s + 1),
                                       storage.records, lastNames, lastNameTops)
      ensures o.Fail? ==>
                && o.error == s
                && FirstRejected(fetch, decode, m, o.error)
                && ReceivedEach(records0, ring0, tops0, AcceptedBelow(fetch, decode, m.nid, m.lowSeqno, o.error),
                                storage.records, lastNames, lastNameTops)
      ensures o.Fail? || !Delivers(fetch(m.nid, s)) ==>
                noPrevRecords == old(noPrevRecords) && waitingReferencedRecords == old(waitingReferencedRecords)
    {
      ghost var records1, ring1, tops1 := storage.records, lastNames, lastNameTops;
      var ok, _ := OnMissingRecord(m.nid, s, fetch, decode, rank);
      o := if ok then Pass else Fail(s);
      AcceptedRecordsSplit(fetch, decode, m.nid, s, s);
      if ok {
        ReceivedNext(fetch, decode, m.nid, m.lowSeqno, s, records0, ring0, tops0, records1, ring1, tops1,
                     storage.records, lastNames, lastNameTops);
      } else {
        ReceivedThen(records0, ring0, tops0, AcceptedBelow(fetch, decode, m.nid, m.lowSeqno, s),
                     records1, ring1, tops1, [], storage.records, lastNames, lastNameTops);
        assert AcceptedBelow(fetch, decode, m.nid, m.lowSeqno, s) + [] == AcceptedBelow(fetch, decode, m.nid, m.lowSeqno, s);
      }
    }

    /**
     * One range of `on_missing_records`: fetches each sequence number from low
     * to high once, in order, and receives every non-empty payload as a record.
     * `Fail(s)` means the record of sequence number `s` failed the pointer
     * check, which raises out of the task, so the range stops there.
     */
    method OnMissingRecordRange(m: MissingData, fetch: (Name, int) -> Option<Bytes>, decode: Bytes -> DagRecord,
                                ghost rank: Name -> nat)
      returns (o: Outcome<int>)
      requires Valid() && StoreRanked(rank) && WaitingRanked(rank)
      requires forall s :: m.lowSeqno <= s <= m.highSeqno && Delivers(fetch(m.nid, s)) ==>
                 Ranked(rank, decode(fetch(m.nid, s).value))
      modifies this`noPrevRecords, this`waitingReferencedRecords, this`lastNames, this`lastNameTops, storage
      ensures Valid() && StoreRanked(rank) && WaitingRanked(rank)
      ensures o.Pass? ==> NoneRejected(fetch, decode, m.nid, m.lowSeqno, m.highSeqno)
      ensures o.Pass? ==>
                ReceivedEach(old(storage.records), old(lastNames), old(lastNameTops),
                             AcceptedRecords(fetch, decode, m.nid, m.lowSeqno, m.highSeqno),
                             storage.records, lastNames, lastNameTops)
      ensures o.Fail? ==>
                && FirstRejected(fetch, decode, m, o.error)
                && ReceivedEach(old(storage.records), old(lastNames), old(lastNameTops),
                                AcceptedBelow(fetch, decode, m.nid, m.lowSeqno, o.error),
                                storage.records, lastNames, lastNameTops)
    {
      ghost var records0, ring0, tops0 := storage.records, lastNames, lastNameTops;
      ReceivedNone(records0, ring0, tops0);
      ghost var last := if m.highSeqno < m.lowSeqno then m.lowSeqno - 1 else m.highSeqno;
      var lowSeqno := m.lowSeqno;
      while lowSeqno <= m.highSeqno
        invariant m.lowSeqno <= lowSeqno <= last + 1
        invariant Valid() && StoreRanked(rank) && WaitingRanked(rank)
        invariant NoneRejected(fetch, decode, m.nid, m.lowSeqno, lowSeqno - 1)
        invariant ReceivedEach(records0, ring0, tops0, AcceptedBelow(fetch, decode, m.nid, m.lowSeqno, lowSeqno),
                               storage.records, lastNames, lastNameTops)
        decreases m.highSeqno - lowSeqno
      {
        o := OnMissingRecordNext(m, lowSeqno, fetch, decode, rank, records0, ring0, tops0);
        if o.Fail? {
          return;
        }
        lowSeqno := lowSeqno + 1;
      }
      assert AcceptedBelow(fetch, decode, m.nid, m.lowSeqno, lowSeqno)
             == AcceptedRecords(fetch, decode, m.nid, m.lowSeqno, m.highSeqno);
      return Pass;
    }

    /**
     * Range `j` of `on_missing_records`, after ranges `0..j-1` were processed
     * in full starting from store `records0` and ring `ring0`, `tops0`.
     */
    method OnMissingRecordsAt(missing: seq<MissingData>, j: nat, fetch: (Name, int) -> Option<Bytes>,
                              decode: Bytes -> DagRecord, ghost rank: Name -> nat,
                              ghost records0: map<Name, DagRecord>, ghost ring0: seq<Name>, ghost tops0: nat)
      returns (o: Outcome<int>)
      requires j < |missing| && tops0 < |ring0|
      requires Valid() && StoreRanked(rank) && WaitingRanked(rank)
      requires forall s :: missing[j].lowSeqno <= s <= missing[j].highSeqno && Delivers(fetch(missing[j].nid, s)) ==>
                 Ranked(rank, decode(fetch(missing[j].nid, s).value))
      requires AllNoneRejected(fetch, decode, missing[..j])
      requires ReceivedEach(records0, ring0, tops0, AllAcceptedRecords(fetch, decode, missing[..j]),
                            storage.records, lastNames, lastNameTops)
      modifies this`noPrevRecords, this`waitingReferencedRecords, this`lastNames, this`lastNameTops, storage
      ensures Valid() && StoreRanked(rank) && WaitingRanked(rank)
      ensures o.Pass? ==> AllNoneRejected(fetch, decode, missing[..j + 1])
      ensures o.Pass? ==>
                ReceivedEach(records0, ring0, tops0, AllAcceptedRecords(fetch, decode, missing[..j + 1]),
                             storage.records, lastNames, lastNameTops)
      ensures o.Fail? ==>
                && var m := missing[j];
                && FirstRejected(fetch, decode, m, o.error)
                && ReceivedEach(records0, ring0, tops0, AcceptedBefore(fetch, decode, missing, j, o.error),
                                storage.records, lastNames, lastNameTops)
    {
      assert missing[..j + 1][..j] == missing[..j];
      ghost var records1, ring1, tops1 := storage.records, lastNames, lastNameTops;
      o := OnMissingRecordRange(missing[j], fetch, decode, rank);
      var m := missing[j];
      var high := if o.Pass? then m.highSeqno else o.error - 1;
      ReceivedThen(records0, ring0, tops0, AllAcceptedRecords(fetch, decode, missing[..j]),
                   records1, ring1, tops1, AcceptedRecords(fetch, decode, m.nid, m.lowSeqno, high),
                   storage.records, lastNames, lastNameTops);
    }

    /**
     * `on_missing_records`: the ranges one after another, until a record is
     * rejected. `Fail((j, s))` means sequence number `s` of range `j` was
     * rejected; earlier ranges were processed in full.
     */
    method OnMissingRecords(missing: seq<MissingData>, fetch: (Name, int) -> Option<Bytes>, decode: Bytes -> DagRecord,
                            ghost rank: Name -> nat)
      returns (o: Outcome<(nat, int)>)
      requires Valid() && StoreRanked(rank) && WaitingRanked(rank)
      requires forall j, s ::
                 0 <= j < |missing| && missing[j].lowSeqno <= s <= missing[j].highSeqno && Delivers(fetch(missing[j].nid, s)) ==>
                 Ranked(rank, decode(fetch(missing[j].nid, s).value))
      modifies this`noPrevRecords, this`waitingReferencedRecords, this`lastNames, this`lastNameTops, storage
      ensures Valid() && StoreRanked(rank) && WaitingRanked(rank)
      ensures o.Pass? ==> AllNoneRejected(fetch, decode, missing)
      ensures o.Pass? ==>
                ReceivedEach(old(storage.records), old(lastNames), old(lastNameTops), AllAcceptedRecords(fetch, decode, missing),
                             storage.records, lastNames, lastNameTops)
      ensures o.Fail? ==>
                && o.error.0 < |missing|
                && var m := missing[o.error.0];
                && AllNoneRejected(fetch, decode, missing[..o.error.0])
                && FirstRejected(fetch, decode, m, o.error.1)
                && ReceivedEach(old(storage.records), old(lastNames), old(lastNameTops),
                                AcceptedBefore(fetch, decode, missing, o.error.0, o.error.1),
                                storage.records, lastNames, lastNameTops)
    {
      ghost var records0, ring0, tops0 := storage.records, lastNames, lastNameTops;
      ReceivedNone(records0, ring0, tops0);
      for j := 0 to |missing|
        invariant Valid() && StoreRanked(rank) && WaitingRanked(rank)
        invariant AllNoneRejected(fetch, decode, missing[..j])
        invariant ReceivedEach(records0, ring0, tops0, AllAcceptedRecords(fetch, decode, missing[..j]),
                               storage.records, lastNames, lastNameTops)
      {
        var r := OnMissingRecordsAt(missing, j, fetch, decode, rank, records0, ring0, tops0);
        if r.Fail? {
          return Fail((j, r.error));
        }
      }
      assert missing[..|missing|] == missing;
      return Pass;
    }
  }
}
