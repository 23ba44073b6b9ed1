/**
 * `template-consumer.py`: a draft consumer that keeps every fetched log event
 * as a record in `records_list`, linking it to the popped tails.
 */
module TemplateConsumer {
  import opened Wrappers
  import opened Ndn
  import opened TailLists

  class Program {
    var recordsList: seq<TailRecord>
    var tailsList: seq<TailRecord>

    function Contents(): Lists
      reads this
    {
      Lists(recordsList, tailsList)
    }

    constructor ()
      ensures recordsList == [] && tailsList == []
    {
      recordsList := [];
      tailsList := [];
    }

    /** `store_record`: pop up to two tails, link their logs, append the new record to both lists. */
    method StoreRecord(contentStr: string)
      modifies this
      ensures Contents() == Stored(old(Contents()), contentStr)
    {
      var record1: Option<string> := None;
      if |tailsList| > 0 {
        record1 := Some(tailsList[|tailsList| - 1].log);
        tailsList := tailsList[..|tailsList| - 1];
      }
      var record2: Option<string> := None;
      if |tailsList| > 0 {
        record2 := Some(tailsList[|tailsList| - 1].log);
        tailsList := tailsList[..|tailsList| - 1];
      }
      var newRecord := CreateRecord(contentStr, record1, record2);
      recordsList := recordsList + [newRecord];
      tailsList := tailsList + [newRecord];
    }

    /**
     * One iteration of `log_events_on_missing_data`: fetch sequence number
     * `seqno` of `nid` and store its payload if it is non-empty.
     */
    method LogEventOnMissing(nid: Name, low: int, seqno: int, fetch: (Name, int) -> Option<Bytes>, text: Bytes -> string,
                             ghost start: Lists)
      requires low <= seqno
      requires Contents() == StoreAll(start, RangeLogs(fetch, text, nid, low, seqno - 1))
      modifies this
      ensures Contents() == StoreAll(start, RangeLogs(fetch, text, nid, low, seqno))
    {
      ghost var logs := RangeLogs(fetch, text, nid, low, seqno - 1);
      var contentStr := fetch(nid, seqno);
      if Delivers(contentStr) {
        var log := text(contentStr.value);
        StoreRecord(log);
        StoreAllSnoc(start, logs, log);
      } else {
        assert RangeLogs(fetch, text, nid, low, seqno) == logs;
      }
    }

    /**
     * One entry of `log_events_on_missing_data`: fetch each sequence number from
     * low to high once, in order, and store every non-empty payload as text.
     */
    method LogEventsOnMissingRange(m: MissingData, fetch: (Name, int) -> Option<Bytes>, text: Bytes -> string)
      modifies this
      ensures Contents() == StoreAll(old(Contents()), RangeLogs(fetch, text, m.nid, m.lowSeqno, m.highSeqno))
    {
      ghost var start := Contents();
      ghost var last := if m.highSeqno < m.lowSeqno then m.lowSeqno - 1 else m.highSeqno;
      var lowSeqno := m.lowSeqno;
      while lowSeqno <= m.highSeqno
        invariant m.lowSeqno <= lowSeqno <= last + 1
        invariant Contents() == StoreAll(start, RangeLogs(fetch, text, m.nid, m.lowSeqno, lowSeqno - 1))
        decreases m.highSeqno - lowSeqno
      {
        LogEventOnMissing(m.nid, m.lowSeqno, lowSeqno, fetch, text, start);
        lowSeqno := lowSeqno + 1;
      }
    }

    /** `log_events_on_missing_data`: the missing ranges one after another. */
    method LogEventsOnMissingData(missing: seq<MissingData>, fetch: (Name, int) -> Option<Bytes>, text: Bytes -> string)
      modifies this
      ensures Contents() == StoreAll(old(Contents()), AllLogs(fetch, text, missing))
    {
      ghost var start := Contents();
      for j := 0 to |missing|
        invariant Contents() == StoreAll(start, AllLogs(fetch, text, missing[..j]))
      {
        assert missing[..j + 1][..j] == missing[..j];
        StoreAllAppend(start, AllLogs(fetch, text, missing[..j]),
                       RangeLogs(fetch, text, missing[j].nid, missing[j].lowSeqno, missing[j].highSeqno));
        LogEventsOnMissingRange(missing[j], fetch, text);
      }
      assert missing[..|missing|] == missing;
    }

    /** `records_on_missing_data` is still a stub: records groups change nothing. */
    method RecordsOnMissingData(missing: seq<MissingData>)
      ensures Contents() == old(Contents())
    {
    }
  }
}
