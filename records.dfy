/**
 * The customer record that the tailoring app keeps in its `customers` list,
 * and the one in-place edit made to a record: setting a measurement.
 */
module Records {
  import opened Wrappers

  /** An order entry; the app only ever counts them, so their fields are kept as raw text. */
  datatype Order = Order(raw: string)

  /**
   * One customer. `measurements` and `orders` are optional because a record
   * restored from storage may lack them, and the app checks for that.
   */
  datatype Customer = Customer(
    id: int,
    name: string,
    phone: string,
    measurements: Option<map<string, string>>,
    orders: Option<seq<Order>>,
    notes: string,
    createdAt: string)

  /** The measurement map with a missing map read as `{}`, as the app's `measurements || {}` does. */
  function MeasurementMap(c: Customer): map<string, string> {
    if c.measurements.Some? then c.measurements.value else map[]
  }

  /** `measurements[field]`, absent when the key was never set. */
  function MeasurementOf(c: Customer, field: string): Option<string> {
    if field in MeasurementMap(c) then Some(MeasurementMap(c)[field]) else None
  }

  /**
   * The record after `measurements[field] = value`, the map being created
   * first when missing: the field reads back `value` verbatim, every other
   * key reads as before, and no other member of the record changes.
   */
  function WithMeasurement(c: Customer, field: string, value: string): (r: Customer)
    ensures r.measurements.Some?
    ensures MeasurementOf(r, field) == Some(value)
    ensures forall k :: k != field ==> MeasurementOf(r, k) == MeasurementOf(c, k)
    ensures MeasurementMap(r).Keys == MeasurementMap(c).Keys + {field}
    ensures r.(measurements := c.measurements) == c
  {
    c.(measurements := Some(MeasurementMap(c)[field := value]))
  }

  /** No two records share an id. */
  predicate UniqueIds(s: seq<Customer>) {
    forall i, j :: 0 <= i < j < |s| ==> s[i].id != s[j].id
  }
}
