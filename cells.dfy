/** The values stored in a time series. Host number and date parsing
    (`parseFloat`, `new Date`) are not interpreted: a parsed cell records the
    text that was handed to the host parser. */
module Cells {

  datatype Option<+T> = None | Some(value: T)

  datatype Cell =
    | Instant(source: string)  // `new Date(source)`
    | Float(source: string)    // `parseFloat(source)`
    | Group(items: seq<Cell>)  // an array held in one cell (hi-lo pair, fraction, error-bar group)
    | Undefined                // JavaScript `undefined`, as `_.zip` fills ragged input

  type Row = seq<Cell>
  type Column = seq<Cell>
}
