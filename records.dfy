/**
 * The three record kinds the garage loads at start-up, and the raw bytes
 * they are read from.
 */
module Records {

  /** One byte of an input file. */
  newtype byte = x: int | 0 <= x < 256

  /** One tab- or newline-terminated field of an input file. */
  type Field = seq<byte>

  /** A car: its serial number, its arrival hour and the ids of its repairs, in order. */
  datatype Request = Request(serialNumber: int, time: int, requests: seq<int>)

  /** A catalog entry: id, name, duration in hours and the resource ids it needs (one unit per entry). */
  datatype Repair = Repair(id: int, name: Field, hoursNeeded: int, resources: seq<int>)

  /** A resource type of the garage and how many units of it the garage owns. */
  datatype Resource = Resource(resID: int, name: Field, garageQuantity: int)
}
