/**
 * What the DBC parser promises about its result, stated against the lines
 * it reads: one message per `BO_` line with the `SG_` lines that follow it,
 * the last protocol type, the last value of each buffered attribute, and
 * the ordering rule of `VAL_` lines (only finished messages receive them).
 */
module ParserProperties {
  import opened Wrappers
  import opened Dicts
  import opened DbcModel
  import opened Parser

  // ---------------------------------------------------------------------
  // What the fold keeps true
  // ---------------------------------------------------------------------

  /**
   * Between two lines: finished messages exist only once some message has
   * been started, nothing has attributes yet, and no value table has reached
   * the message under construction.
   */
  ghost predicate Inv(st: State) {
    && (st.current.None? ==> st.messages == [])
    && (forall i | 0 <= i < |st.messages| :: st.messages[i].attributes == [])
    && (st.current.Some? ==>
          && st.current.value.attributes == []
          && forall j | 0 <= j < |st.current.value.signals| :: st.current.value.signals[j].valueTable == [])
  }

  lemma StepInv(st: State, line: Line)
    requires Inv(st)
    ensures Inv(Step(st, line))
  {
    if line.ValueTableLine? {
      var r := Step(st, line);
      forall i | 0 <= i < |r.messages| ensures r.messages[i].attributes == [] {
        assert r.messages[i] == PatchMessage(st.messages[i], line.tableMsgId, line.tableSignal, BuildTable(line.pairs));
      }
    }
  }

  /**
   * What one line changes: only a `BA_ "ProtocolType"` line sets the protocol
   * type; a `BO_` line appends the message under construction, if any, to
   * the finished ones and starts a new one with its header; an `SG_` line
   * adds a signal to the message under construction and is dropped when
   * there is none; and only a `BA_ ... BO_` line touches the buffered
   * attributes.
   */
  lemma StepEffect(st: State, line: Line)
    ensures Step(st, line).protocolType == if line.ProtocolLine? then line.protocolType else st.protocolType
    ensures Step(st, line).current.Some? <==> st.current.Some? || line.MessageLine?
    ensures |Step(st, line).messages| == |st.messages| + (if line.MessageLine? && st.current.Some? then 1 else 0)
    ensures !line.AttributeLine? ==> Step(st, line).attributes == st.attributes
    ensures line.MessageLine? ==>
      && Step(st, line).messages == Finalize(st)
      && Step(st, line).current == Some(NewMessage(line.msgId, line.msgName, line.msgLength, line.msgNode))
    ensures line.SignalDefLine? ==>
      && Step(st, line).messages == st.messages
      && Step(st, line).current ==
           if st.current.Some? then Some(st.current.value.(signals := st.current.value.signals + [NewSignal(line.signal)]))
           else None
  {
  }

  lemma {:induction false} RunInv(st: State, lines: seq<Line>)
    requires Inv(st)
    ensures Inv(Run(st, lines))
    decreases |lines|
  {
    if lines != [] {
      StepInv(st, lines[0]);
      RunInv(Step(st, lines[0]), lines[1..]);
    }
  }

  // ---------------------------------------------------------------------
  // Messages follow the BO_ lines, signals follow the SG_ lines
  // ---------------------------------------------------------------------

  /** A message without what `VAL_` and attribute lines add to it. */
  datatype MessageShape = MessageShape(id: nat, name: string, length: nat, node: string, defs: seq<SignalLine>)

  function Defs(signals: seq<Signal>): seq<SignalLine> {
    seq(|signals|, j requires 0 <= j < |signals| => signals[j].def)
  }

  function Shape(m: Message): MessageShape {
    MessageShape(m.id, m.name, m.length, m.node, Defs(m.signals))
  }

  function Shapes(ms: seq<Message>): seq<MessageShape> {
    seq(|ms|, i requires 0 <= i < |ms| => Shape(ms[i]))
  }

  /** The `SG_` lines before the first `BO_` line. */
  function LeadingSignals(lines: seq<Line>): seq<SignalLine> {
    if lines == [] then []
    else match lines[0]
      case MessageLine(_, _, _, _) => []
      case SignalDefLine(def) => [def] + LeadingSignals(lines[1..])
      case _ => LeadingSignals(lines[1..])
  }

  /** For each `BO_` line in order: its header and the `SG_` lines up to the next `BO_` line. */
  function Skeleton(lines: seq<Line>): seq<MessageShape> {
    if lines == [] then []
    else match lines[0]
      case MessageLine(id, name, length, node) =>
        [MessageShape(id, name, length, node, LeadingSignals(lines[1..]))] + Skeleton(lines[1..])
      case _ => Skeleton(lines[1..])
  }

  /** The number of `BO_` lines. */
  function CountMessageLines(lines: seq<Line>): nat {
    if lines == [] then 0
    else (if lines[0].MessageLine? then 1 else 0) + CountMessageLines(lines[1..])
  }

  lemma {:induction false} SkeletonLength(lines: seq<Line>)
    ensures |Skeleton(lines)| == CountMessageLines(lines)
  {
    if lines != [] {
      SkeletonLength(lines[1..]);
    }
  }

  /** The last shape with `defs` appended to its signal definitions. */
  function AddSignals(shapes: seq<MessageShape>, defs: seq<SignalLine>): seq<MessageShape> {
    if shapes == [] then []
    else
      var n := |shapes| - 1;
      shapes[..n] + [shapes[n].(defs := shapes[n].defs + defs)]
  }

  lemma AddSignalsSnoc(shapes: seq<MessageShape>, x: MessageShape, defs: seq<SignalLine>)
    ensures AddSignals(shapes + [x], defs) == shapes + [x.(defs := x.defs + defs)]
  {
    assert (shapes + [x])[..|shapes|] == shapes;
  }

  lemma AddSignalsTwice(shapes: seq<MessageShape>, a: seq<SignalLine>, b: seq<SignalLine>)
    ensures AddSignals(AddSignals(shapes, a), b) == AddSignals(shapes, a + b)
  {
    if shapes != [] {
      var n := |shapes| - 1;
      AddSignalsSnoc(shapes[..n], shapes[n].(defs := shapes[n].defs + a), b);
      assert shapes[n].defs + a + b == shapes[n].defs + (a + b);
    }
  }

  lemma ShapesSnoc(ms: seq<Message>, m: Message)
    ensures Shapes(ms + [m]) == Shapes(ms) + [Shape(m)]
  {
  }

  lemma ShapesPatch(ms: seq<Message>, id: nat, name: string, table: Dict<nat, string>)
    ensures Shapes(PatchTables(ms, id, name, table)) == Shapes(ms)
  {
    var r := PatchTables(ms, id, name, table);
    forall i | 0 <= i < |ms| ensures Shape(r[i]) == Shape(ms[i]) {
      assert Defs(r[i].signals) == Defs(ms[i].signals);
    }
  }

  lemma ShapesMerge(ms: seq<Message>, attrs: Dict<nat, Dict<string, string>>)
    ensures Shapes(MergeAttributes(ms, attrs)) == Shapes(ms)
  {
  }

  /** What one line does to the shapes of the messages started so far. */
  lemma StepShapes(st: State, line: Line)
    requires Inv(st)
    ensures Shapes(Finalize(Step(st, line))) ==
      match line
      case MessageLine(id, name, length, node) => Shapes(Finalize(st)) + [MessageShape(id, name, length, node, [])]
      case SignalDefLine(def) => AddSignals(Shapes(Finalize(st)), [def])
      case _ => Shapes(Finalize(st))
  {
    match line
    case MessageLine(id, name, length, node) =>
      ShapesSnoc(Finalize(st), NewMessage(id, name, length, node));
      assert Defs([]) == [];
    case SignalDefLine(def) =>
      if st.current.Some? {
        var m := st.current.value;
        var m' := m.(signals := m.signals + [NewSignal(def)]);
        ShapesSnoc(st.messages, m);
        ShapesSnoc(st.messages, m');
        assert Defs(m'.signals) == Defs(m.signals) + [def];
        AddSignalsSnoc(Shapes(st.messages), Shape(m), [def]);
      }
    case ValueTableLine(id, name, pairs) =>
      var r := Step(st, line);
      ShapesPatch(st.messages, id, name, BuildTable(pairs));
      if st.current.Some? {
        ShapesSnoc(st.messages, st.current.value);
        ShapesSnoc(r.messages, st.current.value);
      }
    case _ =>
  }

  lemma AddSignalsNil(shapes: seq<MessageShape>)
    ensures AddSignals(shapes, []) == shapes
  {
    if shapes != [] {
      assert shapes[|shapes| - 1].defs + [] == shapes[|shapes| - 1].defs;
    }
  }

  /** The shapes after a `BO_` line and the lines after it. */
  lemma AddSignalsAfterHeader(s: seq<MessageShape>, h: MessageShape, leading: seq<SignalLine>, rest: seq<MessageShape>)
    requires h.defs == []
    ensures AddSignals(s + [h], leading) + rest == AddSignals(s, []) + ([h.(defs := leading)] + rest)
  {
    AddSignalsSnoc(s, h, leading);
    AddSignalsNil(s);
    assert h.defs + leading == leading;
  }

  lemma {:induction false} RunShapes(st: State, lines: seq<Line>)
    requires Inv(st)
    ensures Shapes(Finalize(Run(st, lines))) ==
      AddSignals(Shapes(Finalize(st)), LeadingSignals(lines)) + Skeleton(lines)
    decreases |lines|
  {
    var s := Shapes(Finalize(st));
    if lines == [] {
      AddSignalsNil(s);
    } else {
      var st' := Step(st, lines[0]);
      var rest := lines[1..];
      assert Run(st, lines) == Run(st', rest);
      StepInv(st, lines[0]);
      StepShapes(st, lines[0]);
      RunShapes(st', rest);
      match lines[0]
      case MessageLine(id, name, length, node) =>
        AddSignalsAfterHeader(s, MessageShape(id, name, length, node, []), LeadingSignals(rest), Skeleton(rest));
      case SignalDefLine(def) =>
        AddSignalsTwice(s, [def], LeadingSignals(rest));
      case _ =>
    }
  }

  /**
   * The result has one message per `BO_` line, in source order, each holding
   * the `SG_` lines between its header and the next header; `SG_` lines
   * before the first `BO_` line belong to no message.
   */
  lemma ParseFollowsMessageLines(lines: seq<Line>)
    ensures Shapes(Parse(lines).messages) == Skeleton(lines)
    ensures |Parse(lines).messages| == CountMessageLines(lines)
  {
    var st := Run(INIT, lines);
    ShapesFromStart(lines);
    ShapesMerge(Finalize(st), st.attributes);
    assert Parse(lines).messages == MergeAttributes(Finalize(st), st.attributes);
    SkeletonLength(lines);
  }

  lemma ShapesFromStart(lines: seq<Line>)
    ensures Shapes(Finalize(Run(INIT, lines))) == Skeleton(lines)
  {
    RunShapes(INIT, lines);
    assert Shapes(Finalize(INIT)) == [];
    assert AddSignals([], LeadingSignals(lines)) == [];
  }

  // ---------------------------------------------------------------------
  // The protocol type
  // ---------------------------------------------------------------------

  /** `line` is a `BA_ "ProtocolType"` line. */
  predicate SetsProtocol(line: Line) {
    line.ProtocolLine?
  }

  /** The index of the last element of `s` that satisfies `p`, if there is one. */
  function LastWhere<T>(s: seq<T>, p: T -> bool): (r: Option<nat>)
    ensures r.None? <==> forall k | 0 <= k < |s| :: !p(s[k])
    ensures r.Some? ==> r.value < |s| && p(s[r.value]) && forall j | r.value < j < |s| :: !p(s[j])
  {
    if s == [] then None
    else
      var n := |s| - 1;
      if p(s[n]) then Some(n)
      else
        assert forall k | 0 <= k < n :: s[..n][k] == s[k];
        LastWhere(s[..n], p)
  }

  /** The value of the last `BA_ "ProtocolType"` line, if there is one. */
  function LastProtocol(lines: seq<Line>): Option<string> {
    match LastWhere(lines, SetsProtocol)
    case Some(k) => Some(lines[k].protocolType)
    case None => None
  }

  lemma {:induction false} RunProtocol(lines: seq<Line>)
    ensures Run(INIT, lines).protocolType ==
      match LastProtocol(lines)
      case Some(v) => v
      case None => DEFAULT_PROTOCOL
    decreases |lines|
  {
    if lines != [] {
      var n := |lines| - 1;
      assert lines == lines[..n] + [lines[n]];
      RunSnoc(INIT, lines[..n], lines[n]);
      RunProtocol(lines[..n]);
    }
  }

  /** The protocol type is "CAN" unless a `BA_ "ProtocolType"` line occurs; then it is the last one's value. */
  lemma ParseProtocolType(lines: seq<Line>)
    ensures (forall k | 0 <= k < |lines| :: !SetsProtocol(lines[k])) ==> Parse(lines).protocolType == DEFAULT_PROTOCOL
    ensures forall k | 0 <= k < |lines| && SetsProtocol(lines[k]) && (forall j | k < j < |lines| :: !SetsProtocol(lines[j])) ::
      Parse(lines).protocolType == lines[k].protocolType
  {
    RunProtocol(lines);
    var r := LastWhere(lines, SetsProtocol);
    if r.Some? {
      forall k | 0 <= k < |lines| && SetsProtocol(lines[k]) && (forall j | k < j < |lines| :: !SetsProtocol(lines[j]))
        ensures Parse(lines).protocolType == lines[k].protocolType
      {
        assert !(r.value < k) && !(k < r.value);
      }
    }
  }

  // ---------------------------------------------------------------------
  // Message attributes
  // ---------------------------------------------------------------------

  /** `line` is a `BA_ ... BO_` line for message `id`. */
  predicate IsAttributeFor(line: Line, id: nat) {
    line.AttributeLine? && line.attrMsgId == id
  }

  /** `line` is a `BA_ ... BO_` line setting attribute `name` of message `id`. */
  predicate SetsAttribute(line: Line, id: nat, name: string) {
    IsAttributeFor(line, id) && line.attrName == name
  }

  function AttributeSetter(id: nat, name: string): Line -> bool {
    (line: Line) => SetsAttribute(line, id, name)
  }

  /** The value of the last line setting attribute `name` of message `id`, if there is one. */
  function LastAttribute(lines: seq<Line>, id: nat, name: string): Option<string> {
    match LastWhere(lines, AttributeSetter(id, name))
    case Some(k) => Some(lines[k].attrValue)
    case None => None
  }

  /** What one line does to the buffered attributes of message `id`. */
  lemma StepAttributes(st: State, line: Line, id: nat, name: string)
    ensures Get(GetOr(Step(st, line).attributes, id, []), name) ==
      if SetsAttribute(line, id, name) then Some(line.attrValue) else Get(GetOr(st.attributes, id, []), name)
    ensures Get(Step(st, line).attributes, id).None? <==>
      Get(st.attributes, id).None? && !IsAttributeFor(line, id)
  {
    if line.AttributeLine? {
      var forId := GetOr(st.attributes, id, []);
      if line.attrMsgId == id {
        assert GetOr(Step(st, line).attributes, id, []) == Put(forId, line.attrName, line.attrValue);
      } else {
        assert Get(Step(st, line).attributes, id) == Get(st.attributes, id);
      }
    }
  }

  lemma {:induction false} RunAttributes(lines: seq<Line>, id: nat, name: string)
    ensures Get(GetOr(Run(INIT, lines).attributes, id, []), name) == LastAttribute(lines, id, name)
    ensures Get(Run(INIT, lines).attributes, id).None? <==> forall k | 0 <= k < |lines| :: !IsAttributeFor(lines[k], id)
    decreases |lines|
  {
    if lines != [] {
      var n := |lines| - 1;
      var prefix := lines[..n];
      assert lines == prefix + [lines[n]];
      assert forall k | 0 <= k < n :: prefix[k] == lines[k];
      RunSnoc(INIT, prefix, lines[n]);
      RunAttributes(prefix, id, name);
      StepAttributes(Run(INIT, prefix), lines[n], id, name);
    }
  }

  /**
   * After the merge, each message's attributes are the buffered ones of its
   * id: every attribute has the value of the last line that set it for that
   * id, and a message with no attribute line for its id keeps none.
   */
  lemma ParseAttributes(lines: seq<Line>, i: nat, name: string)
    requires i < |Parse(lines).messages|
    ensures Get(Parse(lines).messages[i].attributes, name) == LastAttribute(lines, Parse(lines).messages[i].id, name)
    ensures (forall k | 0 <= k < |lines| :: !IsAttributeFor(lines[k], Parse(lines).messages[i].id)) ==>
      Parse(lines).messages[i].attributes == []
  {
    var st := Run(INIT, lines);
    RunInv(INIT, lines);
    var m := Finalize(st)[i];
    assert m.attributes == [];
    assert Parse(lines).messages[i].id == m.id;
    RunAttributes(lines, m.id, name);
  }

  /** Every attribute dictionary in `attrs` has distinct names. */
  predicate DistinctNames(attrs: Dict<nat, Dict<string, string>>) {
    forall i | 0 <= i < |attrs| :: Distinct(Keys(attrs[i].1))
  }

  lemma {:induction false} PutDistinctNames(attrs: Dict<nat, Dict<string, string>>, id: nat, forId: Dict<string, string>)
    requires DistinctNames(attrs) && Distinct(Keys(forId))
    ensures DistinctNames(Put(attrs, id, forId))
  {
    if attrs != [] && attrs[0].0 != id {
      assert forall i | 0 <= i < |attrs[1..]| :: attrs[1..][i] == attrs[i + 1];
      PutDistinctNames(attrs[1..], id, forId);
      var r := Put(attrs, id, forId);
      assert r == [attrs[0]] + Put(attrs[1..], id, forId);
      forall i | 0 <= i < |r| ensures Distinct(Keys(r[i].1)) {
        if i > 0 {
          assert r[i] == Put(attrs[1..], id, forId)[i - 1];
        }
      }
    } else if attrs != [] {
      var r := Put(attrs, id, forId);
      forall i | 0 <= i < |r| ensures Distinct(Keys(r[i].1)) {
        if i > 0 {
          assert r[i] == attrs[i];
        }
      }
    }
  }

  lemma StepDistinctNames(st: State, line: Line)
    requires DistinctNames(st.attributes)
    ensures DistinctNames(Step(st, line).attributes)
  {
    if line.AttributeLine? {
      var forId := GetOr(st.attributes, line.attrMsgId, []);
      assert Distinct(Keys(forId)) by {
        match IndexOf(st.attributes, line.attrMsgId)
        case Some(k) => assert forId == st.attributes[k].1;
        case None =>
      }
      PutKeepsDistinct(forId, line.attrName, line.attrValue);
      PutDistinctNames(st.attributes, line.attrMsgId, Put(forId, line.attrName, line.attrValue));
    }
  }

  lemma {:induction false} RunDistinctNames(st: State, lines: seq<Line>)
    requires DistinctNames(st.attributes)
    ensures DistinctNames(Run(st, lines).attributes)
    decreases |lines|
  {
    if lines != [] {
      StepDistinctNames(st, lines[0]);
      RunDistinctNames(Step(st, lines[0]), lines[1..]);
    }
  }

  /** A parsed message names each attribute once, so it writes one `[ATTRIBUTE]` line per name. */
  lemma ParseAttributesDistinct(lines: seq<Line>, i: nat)
    requires i < |Parse(lines).messages|
    ensures Distinct(Keys(Parse(lines).messages[i].attributes))
  {
    var st := Run(INIT, lines);
    RunInv(INIT, lines);
    RunDistinctNames(INIT, lines);
    var m := Finalize(st)[i];
    assert m.attributes == [];
    match IndexOf(st.attributes, m.id)
    case Some(k) => assert Parse(lines).messages[i].attributes == st.attributes[k].1;
    case None => assert Parse(lines).messages[i].attributes == [];
  }

  // ---------------------------------------------------------------------
  // Value tables
  // ---------------------------------------------------------------------

  /** `line` is a `VAL_` line for signal `name` of message `id`. */
  predicate IsValueTableFor(line: Line, id: nat, name: string) {
    line.ValueTableLine? && line.tableMsgId == id && line.tableSignal == name
  }

  function Describes(value: nat): ((nat, string)) -> bool {
    (pair: (nat, string)) => pair.0 == value
  }

  /** The description of the last pair for `value`, if there is one. */
  function LastDescription(pairs: seq<(nat, string)>, value: nat): Option<string> {
    match LastWhere(pairs, Describes(value))
    case Some(k) => Some(pairs[k].1)
    case None => None
  }

  /** In the table of a `VAL_` line, a later description of the same raw value replaces an earlier one. */
  lemma {:induction false} BuildTableLastWins(pairs: seq<(nat, string)>, value: nat)
    ensures Get(BuildTable(pairs), value) == LastDescription(pairs, value)
  {
    if pairs != [] {
      var n := |pairs| - 1;
      BuildTableLastWins(pairs[..n], value);
    }
  }

  /** The table of a `VAL_` line describes exactly the raw values its pairs name. */
  lemma BuildTableKeys(pairs: seq<(nat, string)>, value: nat)
    ensures Get(BuildTable(pairs), value).None? <==> forall i | 0 <= i < |pairs| :: pairs[i].0 != value
  {
    BuildTableLastWins(pairs, value);
    assert forall i | 0 <= i < |pairs| :: Describes(value)(pairs[i]) == (pairs[i].0 == value);
  }

  /** A value table holds one entry per raw value. */
  lemma {:induction false} BuildTableDistinct(pairs: seq<(nat, string)>)
    ensures Distinct(Keys(BuildTable(pairs)))
  {
    if pairs != [] {
      var n := |pairs| - 1;
      BuildTableDistinct(pairs[..n]);
      PutKeepsDistinct(BuildTable(pairs[..n]), pairs[n].0, pairs[n].1);
    }
  }

  /** The number of finished messages after some lines is one less than the number of `BO_` lines among them. */
  lemma FinishedCount(lines: seq<Line>)
    ensures CountMessageLines(lines) == 0 ==> Run(INIT, lines).messages == []
    ensures CountMessageLines(lines) > 0 ==>
      Run(INIT, lines).current.Some? && |Run(INIT, lines).messages| == CountMessageLines(lines) - 1
  {
    RunInv(INIT, lines);
    RunShapes(INIT, lines);
    SkeletonLength(lines);
    assert Shapes(Finalize(INIT)) == [];
  }

  /** A finished message keeps its place, its header and its signal definitions through later lines. */
  lemma {:induction false} RunKeepsShape(st: State, lines: seq<Line>, i: nat)
    requires i < |st.messages|
    ensures i < |Run(st, lines).messages|
    ensures Shape(Run(st, lines).messages[i]) == Shape(st.messages[i])
    ensures |Run(st, lines).messages[i].signals| == |st.messages[i].signals|
    decreases |lines|
  {
    if lines != [] {
      var st' := Step(st, lines[0]);
      assert i < |st'.messages| && Shape(st'.messages[i]) == Shape(st.messages[i]) by {
        if lines[0].ValueTableLine? {
          ShapesPatch(st.messages, lines[0].tableMsgId, lines[0].tableSignal, BuildTable(lines[0].pairs));
          assert Shapes(st'.messages)[i] == Shapes(st.messages)[i];
        }
      }
      RunKeepsShape(st', lines[1..], i);
    }
    assert |Defs(Run(st, lines).messages[i].signals)| == |Defs(st.messages[i].signals)|;
  }

  /** A signal of a finished message keeps its value table unless a later `VAL_` line names its message id and signal. */
  lemma {:induction false} RunKeepsSignal(st: State, lines: seq<Line>, i: nat, j: nat)
    requires i < |st.messages| && j < |st.messages[i].signals|
    requires forall k | 0 <= k < |lines| :: !IsValueTableFor(lines[k], st.messages[i].id, st.messages[i].signals[j].def.name)
    ensures i < |Run(st, lines).messages| && j < |Run(st, lines).messages[i].signals|
    ensures Run(st, lines).messages[i].signals[j] == st.messages[i].signals[j]
    decreases |lines|
  {
    RunKeepsShape(st, lines, i);
    if lines != [] {
      var st' := Step(st, lines[0]);
      var m := st.messages[i];
      RunKeepsShape(st, [lines[0]], i);
      assert Run(st, [lines[0]]) == st';
      assert st'.messages[i].signals[j] == m.signals[j];
      assert forall k | 0 <= k < |lines[1..]| :: lines[1..][k] == lines[k + 1];
      RunKeepsSignal(st', lines[1..], i, j);
    }
  }

  /**
   * A `VAL_` line reaches a message that is finished when it appears (one
   * followed by another `BO_` line before it): if no later `VAL_` line names
   * the same message id and signal, every signal of that name in that message
   * ends with exactly the new table.
   */
  lemma ParseAttachesToFinished(pre: seq<Line>, id: nat, name: string, pairs: seq<(nat, string)>, post: seq<Line>, i: nat, j: nat)
    requires CountMessageLines(pre) >= i + 2
    requires forall k | 0 <= k < |post| :: !IsValueTableFor(post[k], id, name)
    requires i < |Parse(pre + [ValueTableLine(id, name, pairs)] + post).messages|
    requires Parse(pre + [ValueTableLine(id, name, pairs)] + post).messages[i].id == id
    requires j < |Parse(pre + [ValueTableLine(id, name, pairs)] + post).messages[i].signals|
    requires Parse(pre + [ValueTableLine(id, name, pairs)] + post).messages[i].signals[j].def.name == name
    ensures Parse(pre + [ValueTableLine(id, name, pairs)] + post).messages[i].signals[j].valueTable == BuildTable(pairs)
  {
    var v := ValueTableLine(id, name, pairs);
    var lines := pre + [v] + post;
    var st0 := Run(INIT, pre);
    var st1 := Step(st0, v);
    FinishedCount(pre);
    RunAppend(INIT, pre + [v], post);
    RunSnoc(INIT, pre, v);
    var st2 := Run(st1, post);
    assert st2 == Run(INIT, lines);
    var m0 := st0.messages[i];
    var m1 := st1.messages[i];
    assert m1 == PatchMessage(m0, id, name, BuildTable(pairs));
    assert |m1.signals| == |m0.signals|;
    // The final message i is m1 with its attributes merged.
    RunKeepsShape(st1, post, i);
    assert Finalize(st2)[i] == st2.messages[i];
    var fin := Parse(lines).messages[i];
    assert fin.signals == st2.messages[i].signals && fin.id == st2.messages[i].id;
    // m0 has the id, and its signal j has the name.
    assert Shape(st2.messages[i]) == Shape(m1);
    assert m0.id == id;
    assert Defs(st2.messages[i].signals)[j] == Defs(m1.signals)[j];
    assert m1.signals[j].def.name == name;
    assert m1.signals[j] == PatchSignal(m0.signals[j], name, BuildTable(pairs));
    assert m1.signals[j].valueTable == BuildTable(pairs);
    RunKeepsSignal(st1, post, i, j);
  }

  /** No signal of `m` has a value table. */
  predicate HasNoValueTables(m: Message) {
    forall j | 0 <= j < |m.signals| :: m.signals[j].valueTable == []
  }

  /**
   * The message under construction when a `VAL_` line appears gets nothing
   * from it: in particular the last message of the file never has a value
   * table.
   */
  lemma ParseLastMessageHasNoValueTables(lines: seq<Line>)
    ensures |Parse(lines).messages| > 0 ==> HasNoValueTables(Parse(lines).messages[|Parse(lines).messages| - 1])
  {
    RunInv(INIT, lines);
  }

  /** Two parser states that differ at most in the finished messages before index `k`. */
  ghost predicate AgreeFrom(s1: State, s2: State, k: nat) {
    && s1.current == s2.current
    && s1.protocolType == s2.protocolType
    && s1.attributes == s2.attributes
    && |s1.messages| == |s2.messages|
    && k <= |s1.messages|
    && forall i | k <= i < |s1.messages| :: s1.messages[i] == s2.messages[i]
  }

  lemma StepAgree(s1: State, s2: State, k: nat, line: Line)
    requires AgreeFrom(s1, s2, k)
    ensures AgreeFrom(Step(s1, line), Step(s2, line), k)
  {
    if line.ValueTableLine? {
      var r1, r2 := Step(s1, line), Step(s2, line);
      forall i | k <= i < |r1.messages| ensures r1.messages[i] == r2.messages[i] {
        assert r1.messages[i] == PatchMessage(s1.messages[i], line.tableMsgId, line.tableSignal, BuildTable(line.pairs));
      }
    }
  }

  lemma {:induction false} RunAgree(s1: State, s2: State, k: nat, lines: seq<Line>)
    requires AgreeFrom(s1, s2, k)
    ensures AgreeFrom(Run(s1, lines), Run(s2, lines), k)
    decreases |lines|
  {
    if lines != [] {
      StepAgree(s1, s2, k, lines[0]);
      RunAgree(Step(s1, lines[0]), Step(s2, lines[0]), k, lines[1..]);
    }
  }

  /**
   * A `VAL_` line changes nothing in the message under construction when it
   * appears nor in any message after it: with or without the line, those
   * messages come out the same.
   */
  lemma ParseValueTableSkipsUnfinished(pre: seq<Line>, v: Line, post: seq<Line>)
    requires v.ValueTableLine?
    ensures |Parse(pre + [v] + post).messages| == |Parse(pre + post).messages|
    ensures forall i | 0 <= i < |Parse(pre + post).messages| && CountMessageLines(pre) <= i + 1 ::
      Parse(pre + [v] + post).messages[i] == Parse(pre + post).messages[i]
  {
    var st0 := Run(INIT, pre);
    var st1 := Step(st0, v);
    var k := |st0.messages|;
    FinishedCount(pre);
    RunAppend(INIT, pre + [v], post);
    RunSnoc(INIT, pre, v);
    RunAppend(INIT, pre, post);
    assert AgreeFrom(st1, st0, k);
    RunAgree(st1, st0, k, post);
    var r1, r2 := Run(st1, post), Run(st0, post);
    assert Run(INIT, pre + [v] + post) == r1;
    assert Run(INIT, pre + post) == r2;
    assert |Finalize(r1)| == |Finalize(r2)|;
    forall i | k <= i < |Finalize(r1)| ensures Finalize(r1)[i] == Finalize(r2)[i] {
    }
  }
}
