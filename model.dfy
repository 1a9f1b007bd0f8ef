/**
 * The in-memory description of a CAN network that the parser builds from a
 * DBC file and the encoder renders as DBF documents, and the DBC lines the
 * parser recognises, already split into their fields.
 */
module DbcModel {
  import opened Dicts

  /** A floating-point field, carried from DBC to DBF as its literal text. */
  datatype Float = Float(literal: string)

  /** The fields of one `SG_` line, in the order the line gives them. */
  datatype SignalLine = SignalLine(
    name: string,
    startBit: nat,
    length: nat,
    byteOrder: string,   // the digits after `@`, passed through unchanged
    valueType: char,     // '+' unsigned, '-' signed
    factor: Float,
    offset: Float,
    phyMinVal: Float,
    phyMaxVal: Float,
    unit: string,
    receiver: string)

  /** A signal: its `SG_` definition and the raw-value descriptions attached by `VAL_`. */
  datatype Signal = Signal(def: SignalLine, valueTable: Dict<nat, string>)

  /** A message: its `BO_` header, its signals in source order and its attributes. */
  datatype Message = Message(
    id: nat,
    name: string,
    length: nat,
    node: string,
    signals: seq<Signal>,
    attributes: Dict<string, string>)

  /**
   * One line of DBC text, classified by the statement form it matches.
   * A line matches at most one of the five forms: `BO_`, `SG_` and `VAL_`
   * lines begin differently from each other and from `BA_` lines, and the two
   * `BA_` forms differ after the quoted name (` "` for the protocol type,
   * ` BO_` for a message attribute). Every other line is `OtherLine`.
   */
  datatype Line =
    | ProtocolLine(protocolType: string)                                    // BA_ "ProtocolType" "<value>";
    | MessageLine(msgId: nat, msgName: string, msgLength: nat, msgNode: string)  // BO_ <id> <name>: <length> <node>
    | SignalDefLine(signal: SignalLine)                                      // SG_ <name> : <start>|<length>@<order><sign> ...
    | AttributeLine(attrName: string, attrMsgId: nat, attrValue: string)    // BA_ "<name>" BO_ <id> <value>;
    | ValueTableLine(tableMsgId: nat, tableSignal: string, pairs: seq<(nat, string)>)  // VAL_ <id> <signal> <value> "<text>" ...;
    | OtherLine
}
