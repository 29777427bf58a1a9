/**
 * The app's two globals, the `customers` list and the `currentIndex`
 * selection, with the operations that change them, and the
 * `tailorCustomers` storage slot they are saved to and restored from.
 *
 * What the browser supplies is passed in: the `prompt` answers (None when
 * the prompt is cancelled), `Date.now()`, the ISO creation time, whether the
 * storage accepts a write, and whether reading it throws.
 */
module CustomerStore {
  import opened Wrappers
  import opened JsText
  import opened Records
  import opened CustomerStats

  /**
   * What `localStorage.getItem('tailorCustomers')` yields: nothing, the empty
   * string, text that JSON.parse rejects, or a list of records. A successful
   * save leaves the list it wrote.
   */
  datatype Slot = Absent | Blank | Garbled | Snapshot(records: seq<Customer>)

  /** Which way `addCustomer` ended: the warning it showed, or the record added and whether it was saved. */
  datatype AddOutcome = NameRejected | PhoneRejected | Added(saved: bool)

  /**
   * The check on one prompt answer: a cancelled prompt, or an answer that is
   * whitespace only, is rejected; otherwise the trimmed answer is kept, which
   * is non-empty and neither starts nor ends with whitespace.
   */
  function Validated(input: Option<string>): (r: Option<string>)
    ensures r.Some? <==> input.Some? && !AllWhitespace(input.value)
    ensures r.Some? ==> r.value == Trim(input.value)
    ensures r.Some? ==> r.value != [] && !IsJsWhitespace(r.value[0]) && !IsJsWhitespace(r.value[|r.value| - 1])
  {
    if input.None? || Trim(input.value) == [] then None else Some(Trim(input.value))
  }

  class Store {
    var customers: seq<Customer>
    var currentIndex: Option<nat>
    /** The storage slot `tailorCustomers`, shared with earlier page loads. */
    var slot: Slot

    /** The selection, when there is one, addresses a record. */
    ghost predicate Valid()
      reads this
    {
      currentIndex.Some? ==> currentIndex.value < |customers|
    }

    /** The script's start: an empty list, nothing selected, the storage as earlier sessions left it. */
    constructor (stored: Slot)
      ensures Valid()
      ensures customers == [] && currentIndex == None && slot == stored
    {
      customers := [];
      currentIndex := None;
      slot := stored;
    }

    /**
     * saveToLocalStorage: a full snapshot of the list replaces what the slot
     * held, or, when the storage refuses the write, the slot is left as it
     * was. The list itself is never rolled back.
     */
    method Save(writeAccepted: bool) returns (ok: bool)
      modifies this`slot
      ensures ok == writeAccepted
      ensures slot == if writeAccepted then Snapshot(customers) else old(slot)
    {
      if writeAccepted {
        slot := Snapshot(customers);
      }
      ok := writeAccepted;
    }

    /**
     * loadFromLocalStorage: a read that throws, or text that does not parse,
     * empties the list; an absent or empty value leaves it as it is; a parsed
     * list replaces it. The selection is not touched, so the store stays
     * valid when nothing is selected, as at start-up.
     */
    method Load(readThrows: bool)
      modifies this`customers
      ensures readThrows ==> customers == []
      ensures !readThrows && (slot.Absent? || slot.Blank?) ==> customers == old(customers)
      ensures !readThrows && slot.Garbled? ==> customers == []
      ensures !readThrows && slot.Snapshot? ==> customers == slot.records
      ensures currentIndex.None? ==> Valid()
    {
      if readThrows {
        customers := [];
      } else {
        match slot
        case Absent =>
        case Blank =>
        case Garbled => customers := [];
        case Snapshot(records) => customers := records;
      }
    }

    /**
     * addCustomer: a rejected name stops before the phone is asked for; a
     * rejected phone stops too; either way nothing changes. Otherwise one
     * record is appended, holding the trimmed name and phone, `Date.now()` as
     * id, no measurements, no orders and no notes, and the list is saved. The
     * count of customers grows by one and the count of orders stays.
     */
    method AddCustomer(nameInput: Option<string>, phoneInput: Option<string>, now: int, createdAt: string,
                       writeAccepted: bool) returns (outcome: AddOutcome)
      requires Valid()
      modifies this`customers, this`slot
      ensures Valid()
      ensures outcome == NameRejected <==> Validated(nameInput).None?
      ensures outcome == PhoneRejected <==> Validated(nameInput).Some? && Validated(phoneInput).None?
      ensures !outcome.Added? ==> customers == old(customers) && slot == old(slot)
      ensures outcome.Added? ==>
                && |customers| == |old(customers)| + 1
                && customers[..|old(customers)|] == old(customers)
                && customers[|old(customers)|] == Customer(now, Trim(nameInput.value), Trim(phoneInput.value),
                                                           Some(map[]), Some([]), "", createdAt)
                && outcome.saved == writeAccepted
                && slot == (if writeAccepted then Snapshot(customers) else old(slot))
      ensures outcome.Added? ==> Stats(customers) == Summary(|old(customers)| + 1, TotalOrders(old(customers)))
      ensures outcome.Added? && UniqueIds(old(customers)) ==>
                ((forall j :: 0 <= j < |old(customers)| ==> old(customers)[j].id != now) ==> UniqueIds(customers))
    {
      var name := Validated(nameInput);
      if name.None? {
        return NameRejected;
      }
      var phone := Validated(phoneInput);
      if phone.None? {
        return PhoneRejected;
      }
      var record := Customer(now, name.value, phone.value, Some(map[]), Some([]), "", createdAt);
      TotalOrdersAppend(customers, [record]);
      assert [record][..0] == [];
      customers := customers + [record];
      var ok := Save(writeAccepted);
      outcome := Added(ok);
    }

    /** openProfile: an index outside the list is ignored; any other becomes the selection. */
    method OpenProfile(index: int)
      requires Valid()
      modifies this`currentIndex
      ensures Valid()
      ensures 0 <= index < |customers| ==> currentIndex == Some(index)
      ensures !(0 <= index < |customers|) ==> currentIndex == old(currentIndex)
    {
      if index < 0 || index >= |customers| {
        return;
      }
      currentIndex := Some(index);
    }

    /** backHome: only the view changes; the selection is kept. */
    method BackHome()
      requires Valid()
      ensures Valid()
      ensures currentIndex == old(currentIndex) && customers == old(customers)
    {
    }

    /**
     * updateMeasurement: without a selection nothing happens and nothing is
     * saved. Otherwise the selected record's measurement `field` becomes
     * `value` and the list is saved; every other record, the list's length,
     * its ids and its statistics stay as they were.
     */
    method UpdateMeasurement(field: string, value: string, writeAccepted: bool)
      requires Valid()
      modifies this`customers, this`slot
      ensures Valid()
      ensures currentIndex.None? ==> customers == old(customers) && slot == old(slot)
      ensures currentIndex.Some? ==>
                var i := currentIndex.value;
                && customers == old(customers)[i := WithMeasurement(old(customers)[i], field, value)]
                && slot == (if writeAccepted then Snapshot(customers) else old(slot))
      ensures Stats(customers) == Stats(old(customers))
      ensures UniqueIds(old(customers)) ==> UniqueIds(customers)
    {
      if currentIndex.None? {
        return;
      }
      var i := currentIndex.value;
      var edited := WithMeasurement(customers[i], field, value);
      TotalOrdersReplace(customers, i, edited);
      customers := customers[i := edited];
      var _ := Save(writeAccepted);
    }
  }

  /**
   * Opening a record and typing a measurement that is saved, then reloading
   * the page: the fresh page's store restores from the slot the whole edited
   * list, in which that record reads back the value and keeps its other
   * measurements, and nothing is selected.
   */
  method EditSaveReload(s: Store, index: int, field: string, value: string) returns (reloaded: Store)
    requires s.Valid() && 0 <= index < |s.customers|
    modifies s
    ensures s.Valid() && s.currentIndex == Some(index)
    ensures s.customers == old(s.customers)[index := WithMeasurement(old(s.customers)[index], field, value)]
    ensures fresh(reloaded) && reloaded.Valid() && reloaded.currentIndex == None
    ensures reloaded.customers == s.customers
    ensures MeasurementOf(reloaded.customers[index], field) == Some(value)
    ensures forall k :: k != field ==>
              MeasurementOf(reloaded.customers[index], k) == MeasurementOf(old(s.customers)[index], k)
  {
    s.OpenProfile(index);
    s.UpdateMeasurement(field, value, true);
    reloaded := new Store(s.slot);
    reloaded.Load(false);
  }
}
