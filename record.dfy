/**
 * The ledger record of `record.py`: a name, a type, optional encoded data, a
 * list of pointers to other records, and the validators over that list.
 */
module RecordModel {
  import opened Wrappers
  import opened Ndn

  datatype RecordType =
    | BaseRecord
    | GenericRecord
    | CertificateRecord
    | RevocationRecord
    | GenesisRecord

  /** The `RuntimeError`s a record raises, by message. */
  datatype RecordError =
    | AlreadyBuilt           // add_pointer on a record whose data is set
    | IncorrectPointerCount  // check_pointer_count: wrong number of pointers
    | DuplicatePointer       // check_pointer_count: the same pointer twice

  const RecordMarker: Component := "RECORD"
  const GenesisMarker: Component := "GENESIS_RECORD"

  predicate IsMarker(c: Component)
  {
    c == RecordMarker || c == GenesisMarker
  }

  predicate Distinct<T(==)>(s: seq<T>)
  {
    forall i, j :: 0 <= i < j < |s| ==> s[i] != s[j]
  }

  /** The name layout `/<producer-prefix>/RECORD/<event-name>`. */
  function RecordName(producer: Name, eventName: Name): Name
  {
    producer + [RecordMarker] + eventName
  }

  /** `k` is the first marker among the positions that have a successor. */
  ghost predicate FirstMarkerAt(name: Name, k: int)
  {
    0 <= k < |name| - 1 && IsMarker(name[k]) && forall i :: 0 <= i < k ==> !IsMarker(name[i])
  }

  /**
   * `get_event_name`: the one component after the first `RECORD` or
   * `GENESIS_RECORD` marker found at positions 0..len-2; `[]` when there is none.
   */
  function EventName(name: Name): (r: Name)
    ensures r == [] <==> forall i :: 0 <= i < |name| - 1 ==> !IsMarker(name[i])
    ensures forall k :: FirstMarkerAt(name, k) ==> r == [name[k + 1]]
  {
    if |name| < 2 then []
    else if IsMarker(name[0]) then [name[1]]
    else
      var r := EventName(name[1..]);
      assert forall k :: FirstMarkerAt(name, k) ==> FirstMarkerAt(name[1..], k - 1);
      r
  }

  /** The event name of a record named by the layout is the first component of its event name. */
  lemma EventNameOfRecordName(producer: Name, eventName: Name)
    requires forall i :: 0 <= i < |producer| ==> !IsMarker(producer[i])
    requires eventName != []
    ensures EventName(RecordName(producer, eventName)) == [eventName[0]]
  {
    assert FirstMarkerAt(RecordName(producer, eventName), |producer|);
  }

  /**
   * `check_pointer_count`: raises the count error when the list does not have
   * exactly `numPointers` entries, and otherwise the duplicate error on the
   * first pointer already seen.
   */
  method CheckPointers(pointers: seq<Name>, numPointers: int) returns (o: Outcome<RecordError>)
    ensures o == Pass <==> |pointers| == numPointers && Distinct(pointers)
    ensures |pointers| != numPointers ==> o == Fail(IncorrectPointerCount)
    ensures |pointers| == numPointers && !Distinct(pointers) ==> o == Fail(DuplicatePointer)
  {
    if |pointers| != numPointers {
      return Fail(IncorrectPointerCount);
    }
    var pointersCopy: seq<Name> := [];
    for i := 0 to |pointers|
      invariant pointersCopy == pointers[..i]
      invariant Distinct(pointersCopy)
    {
      if pointers[i] in pointersCopy {
        ghost var j :| 0 <= j < i && pointersCopy[j] == pointers[i];
        assert pointers[j] == pointers[i];
        return Fail(DuplicatePointer);
      }
      pointersCopy := pointersCopy + [pointers[i]];
    }
    assert pointers[..|pointers|] == pointers;
    return Pass;
  }

  class Record {
    var recordName: Name
    var recordType: Option<RecordType>
    var data: Option<Bytes>
    var recordPointers: seq<Name>
    var contentItem: Option<Bytes>

    /** A new record: the given name, type and data, no pointers and no content item. */
    constructor (recordName: Name, recordType: Option<RecordType>, data: Option<Bytes>)
      ensures this.recordName == recordName && this.recordType == recordType && this.data == data
      ensures recordPointers == [] && contentItem == None
      ensures GetRecordName() == recordName && GetType() == recordType
      ensures GetPointersFromHeader() == [] && GetContentItem() == None
    {
      this.recordName := recordName;
      this.recordType := recordType;
      this.data := data;
      this.recordPointers := [];
      this.contentItem := None;
    }

    /**
     * The NDN data full name of a record read back from the ledger, `[]` for one
     * still under construction. The data's own full name is a parameter.
     */
    function GetRecordFullName(fullName: Bytes -> Name): (r: Name)
      reads this
      ensures data.None? ==> r == []
      ensures data.Some? ==> r == fullName(data.value)
    {
      if data.Some? then fullName(data.value) else []
    }

    /** The name the record was built with; no other member changes it. */
    function GetRecordName(): (r: Name)
      reads this
      ensures r == recordName
    {
      recordName
    }

    /**
     * The event-name component of this record's name: the component after
     * the first marker, `[]` when no marker has a successor.
     */
    function GetEventName(): (r: Name)
      reads this
      ensures r == [] <==> forall i :: 0 <= i < |recordName| - 1 ==> !IsMarker(recordName[i])
      ensures forall k :: FirstMarkerAt(recordName, k) ==> r == [recordName[k + 1]]
    {
      EventName(recordName)
    }

    method SetContentItem(item: Bytes)
      modifies this`contentItem
      ensures contentItem == Some(item)
      ensures GetContentItem() == Some(item)
    {
      contentItem := Some(item);
    }

    /** The payload item last set, `None` before any. */
    function GetContentItem(): (r: Option<Bytes>)
      reads this
      ensures r == contentItem
    {
      contentItem
    }

    /** The type the record was built with; no other member changes it. */
    function GetType(): (r: Option<RecordType>)
      reads this
      ensures r == recordType
    {
      recordType
    }

    /** The pointers added so far, in the order they were added. */
    function GetPointersFromHeader(): (r: seq<Name>)
      reads this
      ensures r == recordPointers
    {
      recordPointers
    }

    /** Appends a pointer, or raises when the record already carries data. */
    method AddPointer(pointer: Name) returns (o: Outcome<RecordError>)
      modifies this`recordPointers
      ensures o == Pass <==> old(data).None?
      ensures data.Some? ==> o == Fail(AlreadyBuilt) && recordPointers == old(recordPointers)
      ensures data.None? ==> recordPointers == old(recordPointers) + [pointer]
      ensures GetPointersFromHeader() == old(GetPointersFromHeader()) + (if data.None? then [pointer] else [])
    {
      if data.Some? {
        return Fail(AlreadyBuilt);
      }
      recordPointers := recordPointers + [pointer];
      return Pass;
    }

    /** Validates this record's pointer list against `numPointers`; changes nothing. */
    method CheckPointerCount(numPointers: int) returns (o: Outcome<RecordError>)
      ensures o == Pass <==> |recordPointers| == numPointers && Distinct(recordPointers)
      ensures |recordPointers| != numPointers ==> o == Fail(IncorrectPointerCount)
      ensures |recordPointers| == numPointers && !Distinct(recordPointers) ==> o == Fail(DuplicatePointer)
    {
      o := CheckPointers(GetPointersFromHeader(), numPointers);
    }
  }
}
