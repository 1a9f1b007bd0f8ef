/**
 * The DBC parser: one pass over the classified lines, holding the finished
 * messages, the message under construction, the protocol type and the
 * attributes buffered per message id (dbc2dbf.py, parse_dbc).
 *
 * `Step` is what one line does to the parser's variables, `Run` folds it
 * over the lines and `Parse` adds what happens after the loop. `ParseDbc`
 * is the program's loop itself, proved to compute `Parse`.
 */
module Parser {
  import opened Wrappers
  import opened Dicts
  import opened DbcModel

  /** The protocol type when no `BA_ "ProtocolType"` line occurs. */
  const DEFAULT_PROTOCOL := "CAN"

  /** The parser's variables between two lines. */
  datatype State = State(
    messages: seq<Message>,                       // the finished messages
    current: Option<Message>,                     // the message under construction
    protocolType: string,
    attributes: Dict<nat, Dict<string, string>>)  // BA_ ... BO_ attributes by message id

  const INIT: State := State([], None, DEFAULT_PROTOCOL, [])

  /** What the parser returns: the messages and the protocol type. */
  datatype Parsed = Parsed(messages: seq<Message>, protocolType: string)

  function NewMessage(id: nat, name: string, length: nat, node: string): Message {
    Message(id, name, length, node, [], [])
  }

  function NewSignal(def: SignalLine): Signal {
    Signal(def, [])
  }

  /** The value table of a `VAL_` line: its pairs stored in order, so a later description of a value replaces an earlier one. */
  function BuildTable(pairs: seq<(nat, string)>): Dict<nat, string> {
    if pairs == [] then []
    else
      var last := pairs[|pairs| - 1];
      Put(BuildTable(pairs[..|pairs| - 1]), last.0, last.1)
  }

  /** A signal after a value table for `name` is stored: replaced if the name matches. */
  function PatchSignal(s: Signal, name: string, table: Dict<nat, string>): Signal {
    if s.def.name == name then s.(valueTable := table) else s
  }

  /** A message after a value table for (`id`, `name`) is stored into its signals. */
  function PatchMessage(m: Message, id: nat, name: string, table: Dict<nat, string>): Message {
    if m.id == id then
      m.(signals := seq(|m.signals|, j requires 0 <= j < |m.signals| => PatchSignal(m.signals[j], name, table)))
    else m
  }

  /** The finished messages after a value table for (`id`, `name`) is stored into them. */
  function PatchTables(ms: seq<Message>, id: nat, name: string, table: Dict<nat, string>): (r: seq<Message>)
    ensures |r| == |ms|
    ensures forall i | 0 <= i < |ms| ::
      && r[i].id == ms[i].id && r[i].name == ms[i].name && r[i].length == ms[i].length
      && r[i].node == ms[i].node && r[i].attributes == ms[i].attributes
      && |r[i].signals| == |ms[i].signals|
    ensures forall i, j | 0 <= i < |ms| && 0 <= j < |ms[i].signals| ::
      && r[i].signals[j].def == ms[i].signals[j].def
      && r[i].signals[j].valueTable ==
           if ms[i].id == id && ms[i].signals[j].def.name == name then table else ms[i].signals[j].valueTable
  {
    seq(|ms|, i requires 0 <= i < |ms| => PatchMessage(ms[i], id, name, table))
  }

  /** The finished messages followed by the one under construction, if any. */
  function Finalize(st: State): seq<Message> {
    st.messages + (if st.current.Some? then [st.current.value] else [])
  }

  /** What one line does to the parser's variables. */
  function Step(st: State, line: Line): State {
    match line
    case ProtocolLine(v) => st.(protocolType := v)
    case MessageLine(id, name, length, node) =>
      st.(messages := Finalize(st), current := Some(NewMessage(id, name, length, node)))
    case SignalDefLine(def) =>
      if st.current.Some? then
        var m := st.current.value;
        st.(current := Some(m.(signals := m.signals + [NewSignal(def)])))
      else st
    case AttributeLine(name, id, v) =>
      st.(attributes := Put(st.attributes, id, Put(GetOr(st.attributes, id, []), name, v)))
    case ValueTableLine(id, name, pairs) =>
      st.(messages := PatchTables(st.messages, id, name, BuildTable(pairs)))
    case OtherLine => st
  }

  /** The parser's variables after the lines, in order, starting from `st`. */
  function Run(st: State, lines: seq<Line>): State
    decreases |lines|
  {
    if lines == [] then st else Run(Step(st, lines[0]), lines[1..])
  }

  lemma {:induction false} RunAppend(st: State, a: seq<Line>, b: seq<Line>)
    ensures Run(st, a + b) == Run(Run(st, a), b)
    decreases |a|
  {
    if a != [] {
      assert (a + b)[0] == a[0];
      assert (a + b)[1..] == a[1..] + b;
      RunAppend(Step(st, a[0]), a[1..], b);
    } else {
      assert a + b == b;
    }
  }

  lemma RunSnoc(st: State, a: seq<Line>, x: Line)
    ensures Run(st, a + [x]) == Step(Run(st, a), x)
  {
    RunAppend(st, a, [x]);
    assert [x][1..] == [];
  }

  /** Every message whose id has buffered attributes gets exactly that mapping. */
  function MergeAttributes(ms: seq<Message>, attrs: Dict<nat, Dict<string, string>>): (r: seq<Message>)
    ensures |r| == |ms|
    ensures forall i | 0 <= i < |ms| ::
      r[i].attributes == GetOr(attrs, ms[i].id, ms[i].attributes) && r[i] == ms[i].(attributes := r[i].attributes)
  {
    seq(|ms|, i requires 0 <= i < |ms| =>
      match Get(attrs, ms[i].id)
      case Some(a) => ms[i].(attributes := a)
      case None => ms[i])
  }

  /** The parser's result on the lines. */
  function Parse(lines: seq<Line>): Parsed {
    var st := Run(INIT, lines);
    Parsed(MergeAttributes(Finalize(st), st.attributes), st.protocolType)
  }

  /** The loop that collects the description of a `VAL_` line. */
  method BuildValueTable(pairs: seq<(nat, string)>) returns (table: Dict<nat, string>)
    ensures table == BuildTable(pairs)
  {
    table := [];
    var i := 0;
    while i < |pairs|
      invariant 0 <= i <= |pairs|
      invariant table == BuildTable(pairs[..i])
    {
      assert pairs[..i + 1][..i] == pairs[..i];
      table := Put(table, pairs[i].0, pairs[i].1);
      i := i + 1;
    }
    assert pairs[..i] == pairs;
  }

  /** The nested loop that stores a value table in every matching signal of every finished message with the id. */
  method AttachValueTable(messages: seq<Message>, id: nat, name: string, table: Dict<nat, string>)
    returns (patched: seq<Message>)
    ensures patched == PatchTables(messages, id, name, table)
  {
    patched := messages;
    var i := 0;
    while i < |patched|
      invariant 0 <= i <= |patched| == |messages|
      invariant forall k | 0 <= k < i :: patched[k] == PatchMessage(messages[k], id, name, table)
      invariant forall k | i <= k < |patched| :: patched[k] == messages[k]
    {
      if patched[i].id == id {
        var signals := patched[i].signals;
        var j := 0;
        while j < |signals|
          invariant 0 <= j <= |signals| == |messages[i].signals|
          invariant forall k | 0 <= k < j :: signals[k] == PatchSignal(messages[i].signals[k], name, table)
          invariant forall k | j <= k < |signals| :: signals[k] == messages[i].signals[k]
        {
          if signals[j].def.name == name {
            signals := signals[j := signals[j].(valueTable := table)];
          }
          j := j + 1;
        }
        patched := patched[i := patched[i].(signals := signals)];
      }
      i := i + 1;
    }
  }

  /** The loop after the parse that hands each message its buffered attributes. */
  method MergeMessageAttributes(messages: seq<Message>, attrs: Dict<nat, Dict<string, string>>)
    returns (merged: seq<Message>)
    ensures merged == MergeAttributes(messages, attrs)
  {
    merged := messages;
    var i := 0;
    while i < |merged|
      invariant 0 <= i <= |merged| == |messages|
      invariant forall k | 0 <= k < i :: merged[k] == MergeAttributes(messages, attrs)[k]
      invariant forall k | i <= k < |merged| :: merged[k] == messages[k]
    {
      match Get(attrs, merged[i].id) {
        case Some(a) => merged := merged[i := merged[i].(attributes := a)];
        case None =>
      }
      i := i + 1;
    }
  }

  /** The parser's loop over the lines and what it does after the last one. */
  method ParseDbc(lines: seq<Line>) returns (messages: seq<Message>, protocolType: string)
    ensures Parsed(messages, protocolType) == Parse(lines)
  {
    messages := [];
    var current: Option<Message> := None;
    protocolType := DEFAULT_PROTOCOL;
    var attributes: Dict<nat, Dict<string, string>> := [];
    var i := 0;
    while i < |lines|
      invariant 0 <= i <= |lines|
      invariant Run(INIT, lines[..i]) == State(messages, current, protocolType, attributes)
    {
      RunSnoc(INIT, lines[..i], lines[i]);
      assert lines[..i + 1] == lines[..i] + [lines[i]];
      match lines[i] {
        case ProtocolLine(v) =>
          protocolType := v;
        case MessageLine(id, name, length, node) =>
          if current.Some? {
            messages := messages + [current.value];
          }
          current := Some(NewMessage(id, name, length, node));
        case SignalDefLine(def) =>
          if current.Some? {
            current := Some(current.value.(signals := current.value.signals + [NewSignal(def)]));
          }
        case AttributeLine(name, id, v) =>
          var forId := GetOr(attributes, id, []);
          attributes := Put(attributes, id, Put(forId, name, v));
        case ValueTableLine(id, name, pairs) =>
          var table := BuildValueTable(pairs);
          messages := AttachValueTable(messages, id, name, table);
        case OtherLine =>
      }
      i := i + 1;
    }
    assert lines[..i] == lines;
    if current.Some? {
      messages := messages + [current.value];
    }
    messages := MergeMessageAttributes(messages, attributes);
  }
}
