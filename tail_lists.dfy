/**
 * The draft record builders of `template-consumer.py` and `even-consumer.py`:
 * every stored log event becomes a record that names the logs of the (at most
 * two) newest tails, those tails are popped, and the new record becomes a tail.
 * This module holds the value-level specification both programs are proved
 * against.
 */
module TailLists {
  import opened Wrappers
  import opened Ndn

  /** The `{"log": ..., "r1": ..., "r2": ...}` dictionary of a draft record. */
  datatype TailRecord = TailRecord(log: string, r1: Option<string>, r2: Option<string>)

  /** `create_record`: a record carrying the log event and the two linked logs. */
  function CreateRecord(logEvent: string, record1: Option<string>, record2: Option<string>): (r: TailRecord)
    ensures r.log == logEvent && r.r1 == record1 && r.r2 == record2
  {
    TailRecord(logEvent, record1, record2)
  }

  /** The program's `records_list` and `tails_list`. */
  datatype Lists = Lists(records: seq<TailRecord>, tails: seq<TailRecord>)

  function Max0(n: int): nat
  {
    if n < 0 then 0 else n
  }

  /** The lists after `store_record(log)`. */
  function Stored(l: Lists, log: string): Lists
  {
    var n := |l.tails|;
    var record1 := if n >= 1 then Some(l.tails[n - 1].log) else None;
    var record2 := if n >= 2 then Some(l.tails[n - 2].log) else None;
    var kept := l.tails[..Max0(n - 2)];
    var newRecord := CreateRecord(log, record1, record2);
    Lists(l.records + [newRecord], kept + [newRecord])
  }

  /**
   * `store_record` appends exactly one record and leaves the earlier ones as
   * they were; the new record carries `log` and the logs of the newest and
   * second-newest tails, or `None` where the tails list is too short.
   */
  lemma StoredRecords(l: Lists, log: string)
    ensures var r := Stored(l, log);
      && |r.records| == |l.records| + 1
      && r.records == l.records + [r.records[|l.records|]]
      && r.records[|l.records|].log == log
      && r.records[|l.records|].r1 == (if |l.tails| >= 1 then Some(l.tails[|l.tails| - 1].log) else None)
      && r.records[|l.records|].r2 == (if |l.tails| >= 2 then Some(l.tails[|l.tails| - 2].log) else None)
  {
  }

  /**
   * `store_record` pops the (at most two) newest tails and pushes the new
   * record, so the tails list ends up `max(n - 2, 0) + 1` long.
   */
  lemma StoredTails(l: Lists, log: string)
    ensures var r := Stored(l, log);
      && |r.tails| == Max0(|l.tails| - 2) + 1
      && r.tails == l.tails[..Max0(|l.tails| - 2)] + [r.records[|l.records|]]
  {
  }

  /** The lists after storing `logs` one after another. */
  function StoreAll(l: Lists, logs: seq<string>): Lists
    decreases |logs|, 1
  {
    if logs == [] then l else StoreLast(l, logs)
  }

  /** Storing a non-empty `logs`: all but the last, then the last. */
  function StoreLast(l: Lists, logs: seq<string>): Lists
    requires logs != []
    decreases |logs|, 0
  {
    Stored(StoreAll(l, logs[..|logs| - 1]), logs[|logs| - 1])
  }

  lemma StoreAllLast(l: Lists, logs: seq<string>)
    requires logs != []
    ensures StoreAll(l, logs) == Stored(StoreAll(l, logs[..|logs| - 1]), logs[|logs| - 1])
  {
    assert StoreAll(l, logs) == StoreLast(l, logs);
  }

  /** Storing appends one record per log, in order, and never touches earlier records. */
  lemma {:induction false} StoreAllRecords(l: Lists, logs: seq<string>)
    ensures |StoreAll(l, logs).records| == |l.records| + |logs|
    ensures StoreAll(l, logs).records[..|l.records|] == l.records
    ensures forall i :: 0 <= i < |logs| ==> StoreAll(l, logs).records[|l.records| + i].log == logs[i]
  {
    if logs != [] {
      var front := logs[..|logs| - 1];
      StoreAllRecords(l, front);
      var s := StoreAll(l, front);
      StoreAllLast(l, logs);
      var before := s.records;
      var after := Stored(s, logs[|logs| - 1]).records;
      StoredRecords(s, logs[|logs| - 1]);
      assert after[..|before|] == before;
      assert after[..|l.records|] == before[..|l.records|];
      forall i | 0 <= i < |logs|
        ensures after[|l.records| + i].log == logs[i]
      {
        if i < |front| {
          assert after[|l.records| + i] == before[|l.records| + i];
        }
      }
    }
  }

  lemma StoreAllSnoc(l: Lists, logs: seq<string>, log: string)
    ensures StoreAll(l, logs + [log]) == Stored(StoreAll(l, logs), log)
  {
    assert (logs + [log])[..|logs|] == logs;
    StoreAllLast(l, logs + [log]);
  }

  /** Storing `a` then `b` is storing `a + b`. */
  lemma {:induction false} StoreAllAppend(l: Lists, a: seq<string>, b: seq<string>)
    ensures StoreAll(l, a + b) == StoreAll(StoreAll(l, a), b)
    decreases |b|
  {
    if b == [] {
      assert a + b == a;
    } else {
      assert (a + b)[..|a + b| - 1] == a + b[..|b| - 1];
      StoreAllAppend(l, a, b[..|b| - 1]);
      StoreAllLast(l, a + b);
      StoreAllLast(StoreAll(l, a), b);
    }
  }

  /** From empty lists, the tails list holds exactly the newest record once anything is stored. */
  lemma {:induction false} StoreAllOneTail(logs: seq<string>)
    ensures |StoreAll(Lists([], []), logs).records| == |logs|
    ensures StoreAll(Lists([], []), logs).tails
              == if logs == [] then [] else [StoreAll(Lists([], []), logs).records[|logs| - 1]]
  {
    if logs != [] {
      var front := logs[..|logs| - 1];
      StoreAllOneTail(front);
      var before := StoreAll(Lists([], []), front);
      StoreAllLast(Lists([], []), logs);
      StoredRecords(before, logs[|logs| - 1]);
      StoredTails(before, logs[|logs| - 1]);
    }
  }

  /** The log just before position `i`, if any. */
  function Previous(logs: seq<string>, i: nat): Option<string>
    requires i <= |logs|
  {
    if i == 0 then None else Some(logs[i - 1])
  }

  /**
   * `records` carry `logs` in order, each linking the log just before it as
   * `r1` and no second tail.
   */
  ghost predicate Chain(records: seq<TailRecord>, logs: seq<string>)
  {
    && |records| == |logs|
    && forall i :: 0 <= i < |logs| ==> records[i] == TailRecord(logs[i], Previous(logs, i), None)
  }

  lemma ChainExtend(records: seq<TailRecord>, logs: seq<string>, log: string)
    requires Chain(records, logs)
    ensures Chain(records + [TailRecord(log, Previous(logs, |logs|), None)], logs + [log])
  {
    var records' := records + [TailRecord(log, Previous(logs, |logs|), None)];
    var logs' := logs + [log];
    forall i | 0 <= i < |logs'|
      ensures records'[i] == TailRecord(logs'[i], Previous(logs', i), None)
    {
      if i < |logs| {
        assert records'[i] == records[i];
        assert Previous(logs', i) == Previous(logs, i);
      } else {
        assert Previous(logs', i) == Previous(logs, |logs|);
      }
    }
  }

  /** From empty lists the records form a chain. */
  lemma {:induction false} StoreAllChain(logs: seq<string>)
    ensures Chain(StoreAll(Lists([], []), logs).records, logs)
  {
    if logs != [] {
      var front := logs[..|logs| - 1];
      StoreAllChain(front);
      StoreAllOneTail(front);
      var before := StoreAll(Lists([], []), front);
      var after := Stored(before, logs[|logs| - 1]);
      StoreAllLast(Lists([], []), logs);
      var newRecord := after.records[|front|];
      StoredRecords(before, logs[|logs| - 1]);
      if front != [] {
        assert before.tails == [before.records[|front| - 1]];
        assert before.records[|front| - 1].log == front[|front| - 1];
      }
      assert newRecord == TailRecord(logs[|logs| - 1], Previous(front, |front|), None);
      ChainExtend(before.records, front, logs[|logs| - 1]);
      assert front + [logs[|logs| - 1]] == logs;
    }
  }

  /** The texts of the non-empty payloads for sequence numbers `low..high` of `nid`, in order. */
  function RangeLogs(fetch: (Name, int) -> Option<Bytes>, text: Bytes -> string, nid: Name, low: int, high: int): seq<string>
    decreases high - low
  {
    if low > high then []
    else
      var payload := fetch(nid, high);
      RangeLogs(fetch, text, nid, low, high - 1) + (if Delivers(payload) then [text(payload.value)] else [])
  }

  /**
   * The sequence numbers of a range are taken in increasing order: the logs of
   * `low..mid` all come before those of `mid + 1..high`.
   */
  lemma {:induction false} RangeLogsSplit(fetch: (Name, int) -> Option<Bytes>, text: Bytes -> string,
                                          nid: Name, low: int, mid: int, high: int)
    requires low - 1 <= mid <= high
    ensures RangeLogs(fetch, text, nid, low, high)
              == RangeLogs(fetch, text, nid, low, mid) + RangeLogs(fetch, text, nid, mid + 1, high)
    decreases high - mid
  {
    if mid == high {
      assert RangeLogs(fetch, text, nid, mid + 1, high) == [];
    } else {
      RangeLogsSplit(fetch, text, nid, low, mid, high - 1);
    }
  }

  /** A payload's text is logged exactly when its sequence number is in the range and the payload is non-empty. */
  lemma {:induction false} RangeLogsMembers(fetch: (Name, int) -> Option<Bytes>, text: Bytes -> string,
                                            nid: Name, low: int, high: int, log: string)
    ensures log in RangeLogs(fetch, text, nid, low, high) <==>
              exists s :: low <= s <= high && Delivers(fetch(nid, s)) && log == text(fetch(nid, s).value)
    decreases high - low
  {
    if low <= high {
      RangeLogsMembers(fetch, text, nid, low, high - 1, log);
      if Delivers(fetch(nid, high)) && log == text(fetch(nid, high).value) {
        assert low <= high <= high;
      }
    }
  }

  /** The logs of every missing range, range after range. */
  function AllLogs(fetch: (Name, int) -> Option<Bytes>, text: Bytes -> string, missing: seq<MissingData>): seq<string>
  {
    if missing == [] then []
    else
      var m := missing[|missing| - 1];
      AllLogs(fetch, text, missing[..|missing| - 1]) + RangeLogs(fetch, text, m.nid, m.lowSeqno, m.highSeqno)
  }
}
