/**
 * `even-consumer.py`: the draft consumer that keeps only log events whose
 * payload is the text of an even integer. A payload that is not an integer
 * makes `int()` raise, which ends the whole missing-data task.
 */
module EvenConsumer {
  import opened Wrappers
  import opened Ndn
  import opened TailLists

  /** The text parses as an integer (Python's `int()`) and that integer is even. */
  predicate IsEven(parseInt: string -> Option<int>, s: string)
  {
    parseInt(s).Some? && parseInt(s).value % 2 == 0
  }

  /** Sequence number `seqno` of `nid` delivers a non-empty payload that `int()` rejects. */
  predicate Unparsable(fetch: (Name, int) -> Option<Bytes>, text: Bytes -> string, parseInt: string -> Option<int>,
                       nid: Name, seqno: int)
  {
    Delivers(fetch(nid, seqno)) && parseInt(text(fetch(nid, seqno).value)).None?
  }

  /** Every non-empty payload for `low..high` of `nid` parses as an integer. */
  predicate AllParse(fetch: (Name, int) -> Option<Bytes>, text: Bytes -> string, parseInt: string -> Option<int>,
                     nid: Name, low: int, high: int)
    decreases high - low
  {
    low > high || (AllParse(fetch, text, parseInt, nid, low, high - 1) && !Unparsable(fetch, text, parseInt, nid, high))
  }

  /** `AllParse` holds exactly when no sequence number of the range is unparsable. */
  lemma {:induction false} AllParseMeans(fetch: (Name, int) -> Option<Bytes>, text: Bytes -> string,
                                         parseInt: string -> Option<int>, nid: Name, low: int, high: int)
    ensures AllParse(fetch, text, parseInt, nid, low, high) <==>
              forall s :: low <= s <= high ==> !Unparsable(fetch, text, parseInt, nid, s)
    decreases high - low
  {
    if low <= high {
      AllParseMeans(fetch, text, parseInt, nid, low, high - 1);
    }
  }

  /** Every non-empty payload of every range of `missing` parses as an integer. */
  predicate AllRangesParse(fetch: (Name, int) -> Option<Bytes>, text: Bytes -> string, parseInt: string -> Option<int>,
                           missing: seq<MissingData>)
  {
    missing == []
    || (var m := missing[|missing| - 1];
        AllRangesParse(fetch, text, parseInt, missing[..|missing| - 1])
        && AllParse(fetch, text, parseInt, m.nid, m.lowSeqno, m.highSeqno))
  }

  /** `AllRangesParse` holds exactly when every range parses. */
  lemma {:induction false} AllRangesParseMeans(fetch: (Name, int) -> Option<Bytes>, text: Bytes -> string,
                                               parseInt: string -> Option<int>, missing: seq<MissingData>)
    ensures AllRangesParse(fetch, text, parseInt, missing) <==>
              forall j :: 0 <= j < |missing| ==>
                AllParse(fetch, text, parseInt, missing[j].nid, missing[j].lowSeqno, missing[j].highSeqno)
  {
    if missing != [] {
      var init := missing[..|missing| - 1];
      AllRangesParseMeans(fetch, text, parseInt, init);
      assert forall j :: 0 <= j < |init| ==> init[j] == missing[j];
    }
  }

  /** The texts of the even payloads for sequence numbers `low..high` of `nid`, in order. */
  function EvenLogs(fetch: (Name, int) -> Option<Bytes>, text: Bytes -> string, parseInt: string -> Option<int>,
                    nid: Name, low: int, high: int): seq<string>
    decreases high - low
  {
    if low > high then []
    else
      var payload := fetch(nid, high);
      EvenLogs(fetch, text, parseInt, nid, low, high - 1)
        + (if Delivers(payload) && IsEven(parseInt, text(payload.value)) then [text(payload.value)] else [])
  }

  /** Only even integers are ever kept. */
  lemma {:induction false} EvenLogsAreEven(fetch: (Name, int) -> Option<Bytes>, text: Bytes -> string,
                                           parseInt: string -> Option<int>, nid: Name, low: int, high: int)
    ensures forall s :: s in EvenLogs(fetch, text, parseInt, nid, low, high) ==> IsEven(parseInt, s)
    decreases high - low
  {
    if low <= high {
      EvenLogsAreEven(fetch, text, parseInt, nid, low, high - 1);
    }
  }

  /** The logs of `logs` that are even integers, in order. */
  function EvenOnly(parseInt: string -> Option<int>, logs: seq<string>): seq<string>
  {
    if logs == [] then []
    else
      EvenOnly(parseInt, logs[..|logs| - 1]) + (if IsEven(parseInt, logs[|logs| - 1]) then [logs[|logs| - 1]] else [])
  }

  lemma {:induction false} EvenOnlyAppend(parseInt: string -> Option<int>, a: seq<string>, b: seq<string>)
    ensures EvenOnly(parseInt, a + b) == EvenOnly(parseInt, a) + EvenOnly(parseInt, b)
    decreases |b|
  {
    if b == [] {
      assert a + b == a;
    } else {
      assert (a + b)[..|a + b| - 1] == a + b[..|b| - 1];
      EvenOnlyAppend(parseInt, a, b[..|b| - 1]);
    }
  }

  /**
   * The even consumer keeps exactly what the template consumer would store,
   * filtered down to the even integers, in the same order.
   */
  lemma {:induction false} EvenLogsFilter(fetch: (Name, int) -> Option<Bytes>, text: Bytes -> string,
                                          parseInt: string -> Option<int>, nid: Name, low: int, high: int)
    ensures EvenLogs(fetch, text, parseInt, nid, low, high) == EvenOnly(parseInt, RangeLogs(fetch, text, nid, low, high))
    decreases high - low
  {
    if low <= high {
      EvenLogsFilter(fetch, text, parseInt, nid, low, high - 1);
      var payload := fetch(nid, high);
      var tail := if Delivers(payload) then [text(payload.value)] else [];
      EvenOnlyAppend(parseInt, RangeLogs(fetch, text, nid, low, high - 1), tail);
    }
  }

  /** The even logs of the missing ranges, range after range. */
  function AllEvenLogs(fetch: (Name, int) -> Option<Bytes>, text: Bytes -> string, parseInt: string -> Option<int>,
                       missing: seq<MissingData>): seq<string>
  {
    if missing == [] then []
    else
      var m := missing[|missing| - 1];
      AllEvenLogs(fetch, text, parseInt, missing[..|missing| - 1])
        + EvenLogs(fetch, text, parseInt, m.nid, m.lowSeqno, m.highSeqno)
  }

  /** The even logs kept before sequence number `s` of range `j` failed to parse. */
  function EvenLogsBefore(fetch: (Name, int) -> Option<Bytes>, text: Bytes -> string, parseInt: string -> Option<int>,
                          missing: seq<MissingData>, j: nat, s: int): seq<string>
    requires j < |missing|
  {
    AllEvenLogs(fetch, text, parseInt, missing[..j]) + EvenLogs(fetch, text, parseInt, missing[j].nid, missing[j].lowSeqno, s - 1)
  }

  /** Over all missing ranges, too, the even consumer keeps the even logs of what the template consumer stores. */
  lemma {:induction false} AllEvenLogsFilter(fetch: (Name, int) -> Option<Bytes>, text: Bytes -> string,
                                             parseInt: string -> Option<int>, missing: seq<MissingData>)
    ensures AllEvenLogs(fetch, text, parseInt, missing) == EvenOnly(parseInt, AllLogs(fetch, text, missing))
  {
    if missing != [] {
      var m := missing[|missing| - 1];
      AllEvenLogsFilter(fetch, text, parseInt, missing[..|missing| - 1]);
      EvenLogsFilter(fetch, text, parseInt, m.nid, m.lowSeqno, m.highSeqno);
      EvenOnlyAppend(parseInt, AllLogs(fetch, text, missing[..|missing| - 1]),
                     RangeLogs(fetch, text, m.nid, m.lowSeqno, m.highSeqno));
    }
  }

  lemma {:induction false} AllEvenLogsAreEven(fetch: (Name, int) -> Option<Bytes>, text: Bytes -> string,
                                              parseInt: string -> Option<int>, missing: seq<MissingData>)
    ensures forall s :: s in AllEvenLogs(fetch, text, parseInt, missing) ==> IsEven(parseInt, s)
  {
    if missing != [] {
      var m := missing[|missing| - 1];
      AllEvenLogsAreEven(fetch, text, parseInt, missing[..|missing| - 1]);
      EvenLogsAreEven(fetch, text, parseInt, m.nid, m.lowSeqno, m.highSeqno);
    }
  }

  /** Records stored for even logs carry even logs. */
  lemma StoredLogsAreEven(l: Lists, logs: seq<string>, parseInt: string -> Option<int>)
    requires forall s :: s in logs ==> IsEven(parseInt, s)
    ensures forall i :: |l.records| <= i < |StoreAll(l, logs).records| ==> IsEven(parseInt, StoreAll(l, logs).records[i].log)
  {
    StoreAllRecords(l, logs);
    forall i | |l.records| <= i < |StoreAll(l, logs).records|
      ensures IsEven(parseInt, StoreAll(l, logs).records[i].log)
    {
      assert logs[i - |l.records|] in logs;
    }
  }

  class Program {
    var recordsList: seq<TailRecord>
    var tailsList: seq<TailRecord>

    function Contents(): Lists
      reads this
    {
      Lists(recordsList, tailsList)
    }

    constructor ()
      ensures recordsList == [] && tailsList == []
    {
      recordsList := [];
      tailsList := [];
    }

    /** `run` returns at once: nothing is stored. */
    method Run()
      ensures Contents() == old(Contents())
    {
    }

    /** `store_record`: pop up to two tails, link their logs, append the new record to both lists. */
    method StoreRecord(contentStr: string)
      modifies this
      ensures Contents() == Stored(old(Contents()), contentStr)
    {
      var record1: Option<string> := None;
      if |tailsList| > 0 {
        record1 := Some(tailsList[|tailsList| - 1].log);
        tailsList := tailsList[..|tailsList| - 1];
      }
      var record2: Option<string> := None;
      if |tailsList| > 0 {
        record2 := Some(tailsList[|tailsList| - 1].log);
        tailsList := tailsList[..|tailsList| - 1];
      }
      var newRecord := CreateRecord(contentStr, record1, record2);
      recordsList := recordsList + [newRecord];
      tailsList := tailsList + [newRecord];
    }

    /**
     * One iteration of `on_missing_data`: fetch sequence number `seqno` of
     * `nid`; a non-empty payload is parsed and stored when even. `ok` is false
     * exactly when the parse fails, and then nothing was stored.
     */
    method OnMissingSeqno(nid: Name, low: int, seqno: int, fetch: (Name, int) -> Option<Bytes>, text: Bytes -> string,
                          parseInt: string -> Option<int>, ghost start: Lists)
      returns (ok: bool)
      requires low <= seqno
      requires AllParse(fetch, text, parseInt, nid, low, seqno - 1)
      requires Contents() == StoreAll(start, EvenLogs(fetch, text, parseInt, nid, low, seqno - 1))
      modifies this
      ensures ok <==> !Unparsable(fetch, text, parseInt, nid, seqno)
      ensures ok ==> AllParse(fetch, text, parseInt, nid, low, seqno)
      ensures ok ==> Contents() == StoreAll(start, EvenLogs(fetch, text, parseInt, nid, low, seqno))
      ensures !ok ==> Contents() == old(Contents())
    {
      ghost var logs := EvenLogs(fetch, text, parseInt, nid, low, seqno - 1);
      var contentStr := fetch(nid, seqno);
      ok := true;
      if Delivers(contentStr) {
        var value := parseInt(text(contentStr.value));
        if value.None? {
          return false;
        }
        if value.value % 2 == 0 {
          var log := text(contentStr.value);
          StoreRecord(log);
          StoreAllSnoc(start, logs, log);
        } else {
          assert EvenLogs(fetch, text, parseInt, nid, low, seqno) == logs;
        }
      } else {
        assert EvenLogs(fetch, text, parseInt, nid, low, seqno) == logs;
      }
    }

    /**
     * One entry of `on_missing_data`: fetch each sequence number from low to
     * high once, in order, storing the even payloads. `Fail(s)` means the
     * payload of sequence number `s` did not parse and the task ended there.
     */
    method OnMissingRange(m: MissingData, fetch: (Name, int) -> Option<Bytes>, text: Bytes -> string,
                          parseInt: string -> Option<int>)
      returns (o: Outcome<int>)
      modifies this
      ensures o.Pass? ==> AllParse(fetch, text, parseInt, m.nid, m.lowSeqno, m.highSeqno)
      ensures o.Pass? ==>
                Contents() == StoreAll(old(Contents()), EvenLogs(fetch, text, parseInt, m.nid, m.lowSeqno, m.highSeqno))
      ensures o.Fail? ==>
                && m.lowSeqno <= o.error <= m.highSeqno
                && Unparsable(fetch, text, parseInt, m.nid, o.error)
                && AllParse(fetch, text, parseInt, m.nid, m.lowSeqno, o.error - 1)
                && Contents() == StoreAll(old(Contents()), EvenLogs(fetch, text, parseInt, m.nid, m.lowSeqno, o.error - 1))
    {
      ghost var start := Contents();
      ghost var last := if m.highSeqno < m.lowSeqno then m.lowSeqno - 1 else m.highSeqno;
      var lowSeqno := m.lowSeqno;
      while lowSeqno <= m.highSeqno
        invariant m.lowSeqno <= lowSeqno <= last + 1
        invariant AllParse(fetch, text, parseInt, m.nid, m.lowSeqno, lowSeqno - 1)
        invariant Contents() == StoreAll(start, EvenLogs(fetch, text, parseInt, m.nid, m.lowSeqno, lowSeqno - 1))
        decreases m.highSeqno - lowSeqno
      {
        var ok := OnMissingSeqno(m.nid, m.lowSeqno, lowSeqno, fetch, text, parseInt, start);
        if !ok {
          return Fail(lowSeqno);
        }
        lowSeqno := lowSeqno + 1;
      }
      return Pass;
    }

    /**
     * `on_missing_data`: the missing ranges one after another. `Fail((j, s))`
     * means sequence number `s` of range `j` did not parse; earlier ranges were
     * processed in full.
     */
    method OnMissingData(missing: seq<MissingData>, fetch: (Name, int) -> Option<Bytes>, text: Bytes -> string,
                         parseInt: string -> Option<int>)
      returns (o: Outcome<(nat, int)>)
      modifies this
      ensures o.Pass? ==> AllRangesParse(fetch, text, parseInt, missing)
      ensures o.Pass? ==>
                Contents() == StoreAll(old(Contents()), AllEvenLogs(fetch, text, parseInt, missing))
      ensures o.Fail? ==>
                && o.error.0 < |missing|
                && var m := missing[o.error.0];
                && m.lowSeqno <= o.error.1 <= m.highSeqno
                && Unparsable(fetch, text, parseInt, m.nid, o.error.1)
                && AllRangesParse(fetch, text, parseInt, missing[..o.error.0])
                && AllParse(fetch, text, parseInt, m.nid, m.lowSeqno, o.error.1 - 1)
                && Contents() == StoreAll(old(Contents()), EvenLogsBefore(fetch, text, parseInt, missing, o.error.0, o.error.1))
    {
      for j := 0 to |missing|
        invariant AllRangesParse(fetch, text, parseInt, missing[..j])
        invariant Contents() == StoreAll(old(Contents()), AllEvenLogs(fetch, text, parseInt, missing[..j]))
      {
        ghost var done := AllEvenLogs(fetch, text, parseInt, missing[..j]);
        assert missing[..j + 1][..j] == missing[..j];
        var r := OnMissingRange(missing[j], fetch, text, parseInt);
        if r.Fail? {
          StoreAllAppend(old(Contents()), done,
                         EvenLogs(fetch, text, parseInt, missing[j].nid, missing[j].lowSeqno, r.error - 1));
          return Fail((j, r.error));
        }
        StoreAllAppend(old(Contents()), done,
                       EvenLogs(fetch, text, parseInt, missing[j].nid, missing[j].lowSeqno, missing[j].highSeqno));
      }
      assert missing[..|missing|] == missing;
      return Pass;
    }
  }
}
