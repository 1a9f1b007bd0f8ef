/**
 * The DBF encoder (dbc2dbf.py, convert_to_dbf): the messages are split by
 * their `VFrameFormat` attribute into a J1939 group and a CAN group, and each
 * group is rendered as a BUSMASTER database document. A document is modelled
 * as its sequence of records, one per output line, with every field the line
 * carries.
 */
module Encoder {
  import opened Wrappers
  import opened Dicts
  import opened DbcModel
  import opened SignalEncoding

  // ---------------------------------------------------------------------
  // Groups
  // ---------------------------------------------------------------------

  /** The two documents the encoder writes. */
  datatype Protocol = J1939 | Can

  /** The attribute that selects a message's group. */
  const FRAME_FORMAT := "VFrameFormat"

  /** The protocol name written in a document's header. */
  function Label(p: Protocol): string {
    match p
    case J1939 => "J1939"
    case Can => "CAN"
  }

  /** The value of the message's `VFrameFormat` attribute, if it has one. */
  function FrameFormat(m: Message): (r: Option<string>)
    ensures r.None? <==> FRAME_FORMAT !in Keys(m.attributes)
    ensures r.Some? ==> (FRAME_FORMAT, r.value) in m.attributes
  {
    Get(m.attributes, FRAME_FORMAT)
  }

  /** J1939 takes the messages whose frame format is "3", CAN those whose frame format is "1" or "2". */
  predicate InGroup(m: Message, p: Protocol) {
    match p
    case J1939 => FrameFormat(m) == Some("3")
    case Can => FrameFormat(m) == Some("1") || FrameFormat(m) == Some("2")
  }

  /** The messages of group `p`, in input order (the program's list comprehension). */
  function Group(ms: seq<Message>, p: Protocol): (g: seq<Message>)
    ensures |g| <= |ms|
  {
    if ms == [] then [] else (if InGroup(ms[0], p) then [ms[0]] else []) + Group(ms[1..], p)
  }

  /** A group keeps exactly the messages that belong to it ... */
  lemma {:induction false} GroupMembers(ms: seq<Message>, p: Protocol, m: Message)
    ensures m in Group(ms, p) <==> m in ms && InGroup(m, p)
  {
    if ms != [] {
      GroupMembers(ms[1..], p, m);
      assert m in ms <==> m == ms[0] || m in ms[1..];
    }
  }

  /** ... in their input order: grouping a concatenation groups each part. */
  lemma {:induction false} GroupAppend(a: seq<Message>, b: seq<Message>, p: Protocol)
    ensures Group(a + b, p) == Group(a, p) + Group(b, p)
  {
    if a == [] {
      assert a + b == b;
    } else {
      assert (a + b)[0] == a[0];
      assert (a + b)[1..] == a[1..] + b;
      GroupAppend(a[1..], b, p);
      var x := if InGroup(a[0], p) then [a[0]] else [];
      assert Group(a + b, p) == x + (Group(a[1..], p) + Group(b, p));
      assert x + (Group(a[1..], p) + Group(b, p)) == (x + Group(a[1..], p)) + Group(b, p);
    }
  }

  /**
   * Each message lands in the J1939 group exactly when its frame format is
   * "3" and in the CAN group exactly when it is "1" or "2"; so never in both,
   * and in neither when it has no frame format.
   */
  lemma GroupMembership(ms: seq<Message>, m: Message)
    requires m in ms
    ensures m in Group(ms, J1939) <==> FrameFormat(m) == Some("3")
    ensures m in Group(ms, Can) <==> FrameFormat(m) == Some("1") || FrameFormat(m) == Some("2")
    ensures !(m in Group(ms, J1939) && m in Group(ms, Can))
    ensures FrameFormat(m).None? ==> m !in Group(ms, J1939) && m !in Group(ms, Can)
  {
    GroupMembers(ms, J1939, m);
    GroupMembers(ms, Can, m);
  }

  /** The number of messages in neither group. */
  function CountUngrouped(ms: seq<Message>): nat {
    if ms == [] then 0
    else (if !InGroup(ms[0], J1939) && !InGroup(ms[0], Can) then 1 else 0) + CountUngrouped(ms[1..])
  }

  /** The two groups and the ungrouped messages together are as many as the messages. */
  lemma {:induction false} GroupSizes(ms: seq<Message>)
    ensures |Group(ms, J1939)| + |Group(ms, Can)| + CountUngrouped(ms) == |ms|
  {
    if ms != [] {
      GroupSizes(ms[1..]);
    }
  }

  // ---------------------------------------------------------------------
  // Records
  // ---------------------------------------------------------------------

  /** The text of the `Banner` line. */
  const BANNER := "//******************************BUSMASTER Messages and signals Database ******************************//"
  const DATABASE_VERSION := "1.3"
  const BUSMASTER_VERSION := "3.2.2"

  /**
   * One line of a DBF document. `StartMsg` is written with the constant 1
   * between the signal count and the frame flag, `BusmasterVersion` in
   * square brackets.
   */
  datatype Record =
    | Banner
    | DatabaseVersion(version: string)
    | ProtocolName(protocol: string)
    | BusmasterVersion(busmaster: string)
    | NumberOfMessages(count: nat)
    | StartMsg(msgName: string, msgId: nat, msgLength: nat, numSignals: nat, frame: char)
    | Attribute(attrName: string, attrValue: string)
    | StartSignal(sigName: string, sigLength: nat, byteIndex: nat, bitIndex: nat, typeTag: char,
                  rawMax: int, rawMin: int, byteOrder: string, offset: Float, factor: Float, unit: string)
    | ValueDescription(description: string, value: nat)
    | EndMsg

  /** The five header lines of a document for `count` messages. */
  function Header(p: Protocol, count: nat): seq<Record> {
    [Banner, DatabaseVersion(DATABASE_VERSION), ProtocolName(Label(p)),
     BusmasterVersion(BUSMASTER_VERSION), NumberOfMessages(count)]
  }

  /** The `[START_MSG]` line: masked id, signal count over all signals, frame flag. */
  function StartMsgRecord(m: Message): Record {
    StartMsg(m.name, MaskedId(m.id), m.length, |m.signals|, FrameFlag(m.id))
  }

  /** The `[ATTRIBUTE]` lines, in the attributes' insertion order. */
  function AttributeRecords(attrs: Dict<string, string>): (rs: seq<Record>)
    ensures |rs| == |attrs|
    ensures forall i | 0 <= i < |rs| :: rs[i] == Attribute(attrs[i].0, attrs[i].1)
  {
    if attrs == [] then []
    else
      var n := |attrs| - 1;
      AttributeRecords(attrs[..n]) + [Attribute(attrs[n].0, attrs[n].1)]
  }

  /** The `[VALUE_DESCRIPTION]` lines of a value table, description first, in the table's order. */
  function ValueRecords(table: Dict<nat, string>): (rs: seq<Record>)
    ensures |rs| == |table|
    ensures forall i | 0 <= i < |rs| :: rs[i] == ValueDescription(table[i].1, table[i].0)
  {
    if table == [] then []
    else
      var n := |table| - 1;
      ValueRecords(table[..n]) + [ValueDescription(table[n].1, table[n].0)]
  }

  /** The `[START_SIGNALS]` line of a signal of positive length. */
  function StartSignalRecord(def: SignalLine): (r: Record)
    requires def.length > 0
    ensures r.StartSignal? && WellFormedStart(r)
    ensures Encoding(r.typeTag, r.rawMax, r.rawMin) == RawEncoding(def.length, def.valueType)
    ensures r.byteIndex == ByteIndex(def.startBit) && r.bitIndex == BitIndex(def.startBit)
    ensures r.sigName == def.name && r.sigLength == def.length
    ensures r.byteOrder == def.byteOrder && r.offset == def.offset && r.factor == def.factor && r.unit == def.unit
  {
    var e := RawEncoding(def.length, def.valueType);
    StartSignal(def.name, def.length, ByteIndex(def.startBit), BitIndex(def.startBit), e.typeTag,
                e.rawMax, e.rawMin, def.byteOrder, def.offset, def.factor, def.unit)
  }

  /** A signal's lines: none for a zero-length signal. */
  function SignalBlock(s: Signal): (rs: seq<Record>)
    ensures |rs| == if s.def.length > 0 then 1 + |s.valueTable| else 0
  {
    if s.def.length > 0 then [StartSignalRecord(s.def)] + ValueRecords(s.valueTable) else []
  }

  function SignalRecords(signals: seq<Signal>): seq<Record> {
    if signals == [] then []
    else
      var n := |signals| - 1;
      SignalRecords(signals[..n]) + SignalBlock(signals[n])
  }

  /** The lines between a message's `[START_MSG]` and `[END_MSG]`: its attributes, then its signals. */
  function MessageBody(m: Message): seq<Record> {
    AttributeRecords(m.attributes) + SignalRecords(m.signals)
  }

  /** A message's lines, from `[START_MSG]` to `[END_MSG]`. */
  function MessageBlock(m: Message): seq<Record> {
    [StartMsgRecord(m)] + MessageBody(m) + [EndMsg]
  }

  function Blocks(ms: seq<Message>): seq<Record> {
    if ms == [] then []
    else
      var n := |ms| - 1;
      Blocks(ms[..n]) + MessageBlock(ms[n])
  }

  lemma AttributeRecordsSnoc(attrs: Dict<string, string>, j: nat)
    requires j < |attrs|
    ensures AttributeRecords(attrs[..j + 1]) == AttributeRecords(attrs[..j]) + [Attribute(attrs[j].0, attrs[j].1)]
  {
    assert attrs[..j + 1][..j] == attrs[..j];
  }

  lemma ValueRecordsSnoc(table: Dict<nat, string>, t: nat)
    requires t < |table|
    ensures ValueRecords(table[..t + 1]) == ValueRecords(table[..t]) + [ValueDescription(table[t].1, table[t].0)]
  {
    assert table[..t + 1][..t] == table[..t];
  }

  lemma SignalRecordsSnoc(signals: seq<Signal>, k: nat)
    requires k < |signals|
    ensures SignalRecords(signals[..k + 1]) == SignalRecords(signals[..k]) + SignalBlock(signals[k])
  {
    assert signals[..k + 1][..k] == signals[..k];
  }

  lemma BlocksSnoc(ms: seq<Message>, i: nat)
    requires i < |ms|
    ensures Blocks(ms[..i + 1]) == Blocks(ms[..i]) + MessageBlock(ms[i])
  {
    assert ms[..i + 1][..i] == ms[..i];
  }

  /**
   * Regrouping a concatenation of lines. Proved on its own so that the
   * rendering loops need not unfold sequence equality in their larger context.
   */
  lemma AppendAssoc(a: seq<Record>, b: seq<Record>, c: seq<Record>)
    ensures (a + b) + c == a + (b + c)
  {
  }

  /** The document of a group: the header, then one block per message in order. */
  function Document(p: Protocol, group: seq<Message>): seq<Record> {
    Header(p, |group|) + Blocks(group)
  }

  /** The document the encoder writes for protocol `p`. */
  function Dbf(messages: seq<Message>, p: Protocol): seq<Record> {
    Document(p, Group(messages, p))
  }

  // ---------------------------------------------------------------------
  // The rendering loops
  // ---------------------------------------------------------------------

  /** The loop that writes a message's attributes. */
  method RenderAttributes(attrs: Dict<string, string>) returns (lines: seq<Record>)
    ensures lines == AttributeRecords(attrs)
  {
    lines := [];
    var j := 0;
    while j < |attrs|
      invariant 0 <= j <= |attrs|
      invariant lines == AttributeRecords(attrs[..j])
    {
      AttributeRecordsSnoc(attrs, j);
      lines := lines + [Attribute(attrs[j].0, attrs[j].1)];
      j := j + 1;
    }
    assert attrs[..j] == attrs;
  }

  /** The body of the signal loop: nothing for a zero-length signal, else its line and the loop over its value table. */
  method RenderSignal(signal: Signal) returns (lines: seq<Record>)
    ensures lines == SignalBlock(signal)
  {
    lines := [];
    if signal.def.length > 0 {
      var byteIndex := ByteIndex(signal.def.startBit);
      var bitIndex := BitIndex(signal.def.startBit);
      var e := RawEncoding(signal.def.length, signal.def.valueType);
      lines := [StartSignal(signal.def.name, signal.def.length, byteIndex, bitIndex, e.typeTag,
                            e.rawMax, e.rawMin, signal.def.byteOrder, signal.def.offset,
                            signal.def.factor, signal.def.unit)];
      var t := 0;
      while t < |signal.valueTable|
        invariant 0 <= t <= |signal.valueTable|
        invariant lines == [StartSignalRecord(signal.def)] + ValueRecords(signal.valueTable[..t])
      {
        ValueRecordsSnoc(signal.valueTable, t);
        lines := lines + [ValueDescription(signal.valueTable[t].1, signal.valueTable[t].0)];
        t := t + 1;
      }
      assert signal.valueTable[..t] == signal.valueTable;
    }
  }

  /** The loop over a message's signals. */
  method RenderSignals(signals: seq<Signal>) returns (lines: seq<Record>)
    ensures lines == SignalRecords(signals)
  {
    lines := [];
    var k := 0;
    while k < |signals|
      invariant 0 <= k <= |signals|
      invariant lines == SignalRecords(signals[..k])
    {
      SignalRecordsSnoc(signals, k);
      var signalLines := RenderSignal(signals[k]);
      lines := lines + signalLines;
      k := k + 1;
    }
    assert signals[..k] == signals;
  }

  /** The body of the message loop: the `[START_MSG]` line, the attributes, the signal loop and `[END_MSG]`. */
  method RenderMessage(message: Message) returns (lines: seq<Record>)
    ensures lines == MessageBlock(message)
  {
    var numSignals := |message.signals|;
    var extMsg := 'S';
    var messageId := MaskedId(message.id);
    if IsExtended(message.id) {
      extMsg := 'X';
    }
    assert extMsg == FrameFlag(message.id);
    lines := [StartMsg(message.name, messageId, message.length, numSignals, extMsg)];
    assert lines == [StartMsgRecord(message)];
    var attributeLines := RenderAttributes(message.attributes);
    lines := lines + attributeLines;
    var signalLines := RenderSignals(message.signals);
    lines := lines + signalLines;
    AppendAssoc([StartMsgRecord(message)], attributeLines, signalLines);
    lines := lines + [EndMsg];
  }

  /** The loop that renders one group: the header, then each message in order. */
  method RenderGroup(group: seq<Message>, p: Protocol) returns (content: seq<Record>)
    ensures content == Document(p, group)
  {
    content := Header(p, |group|);
    var i := 0;
    while i < |group|
      invariant 0 <= i <= |group|
      invariant content == Header(p, |group|) + Blocks(group[..i])
    {
      var messageLines := RenderMessage(group[i]);
      BlocksSnoc(group, i);
      AppendAssoc(Header(p, |group|), Blocks(group[..i]), messageLines);
      content := content + messageLines;
      i := i + 1;
    }
    assert group[..i] == group;
  }

  /** Both documents: the J1939 group's and the CAN group's. */
  method ConvertToDbf(messages: seq<Message>) returns (j1939Content: seq<Record>, canContent: seq<Record>)
    ensures j1939Content == Dbf(messages, J1939)
    ensures canContent == Dbf(messages, Can)
  {
    var j1939Messages := Group(messages, J1939);
    var canMessages := Group(messages, Can);
    j1939Content := RenderGroup(j1939Messages, J1939);
    canContent := RenderGroup(canMessages, Can);
  }

  // ---------------------------------------------------------------------
  // What a document promises
  // ---------------------------------------------------------------------

  /** The `[START_MSG]` lines of `rs`, in order. */
  function StartMsgs(rs: seq<Record>): seq<Record> {
    if rs == [] then [] else (if rs[0].StartMsg? then [rs[0]] else []) + StartMsgs(rs[1..])
  }

  /** The number of `[END_MSG]` lines of `rs`. */
  function CountEndMsgs(rs: seq<Record>): nat {
    if rs == [] then 0 else (if rs[0].EndMsg? then 1 else 0) + CountEndMsgs(rs[1..])
  }

  /** The `[START_SIGNALS]` lines of `rs`, in order. */
  function StartSignals(rs: seq<Record>): seq<Record> {
    if rs == [] then [] else (if rs[0].StartSignal? then [rs[0]] else []) + StartSignals(rs[1..])
  }

  lemma SelectSingle(r: Record)
    ensures StartMsgs([r]) == (if r.StartMsg? then [r] else [])
    ensures CountEndMsgs([r]) == (if r.EndMsg? then 1 else 0)
    ensures StartSignals([r]) == (if r.StartSignal? then [r] else [])
  {
    assert [r][1..] == [];
  }

  lemma {:induction false} SelectAppend(a: seq<Record>, b: seq<Record>)
    ensures StartMsgs(a + b) == StartMsgs(a) + StartMsgs(b)
    ensures CountEndMsgs(a + b) == CountEndMsgs(a) + CountEndMsgs(b)
    ensures StartSignals(a + b) == StartSignals(a) + StartSignals(b)
  {
    if a == [] {
      assert a + b == b;
    } else {
      assert (a + b)[0] == a[0];
      assert (a + b)[1..] == a[1..] + b;
      SelectAppend(a[1..], b);
      var x := if a[0].StartMsg? then [a[0]] else [];
      assert StartMsgs(a + b) == x + (StartMsgs(a[1..]) + StartMsgs(b));
      assert x + (StartMsgs(a[1..]) + StartMsgs(b)) == (x + StartMsgs(a[1..])) + StartMsgs(b);
      var y := if a[0].StartSignal? then [a[0]] else [];
      assert StartSignals(a + b) == y + (StartSignals(a[1..]) + StartSignals(b));
      assert y + (StartSignals(a[1..]) + StartSignals(b)) == (y + StartSignals(a[1..])) + StartSignals(b);
    }
  }

  /** Lines that are not `[START_MSG]`, `[END_MSG]` or `[START_SIGNALS]` lines contribute to no selection. */
  lemma {:induction false} NoFrames(rs: seq<Record>)
    requires forall i | 0 <= i < |rs| :: !rs[i].StartMsg? && !rs[i].EndMsg? && !rs[i].StartSignal?
    ensures StartMsgs(rs) == [] && CountEndMsgs(rs) == 0 && StartSignals(rs) == []
  {
    if rs != [] {
      assert forall i | 0 <= i < |rs[1..]| :: rs[1..][i] == rs[i + 1];
      NoFrames(rs[1..]);
    }
  }

  /** The number of signals of positive length, the ones that are written. */
  function CountEmitted(signals: seq<Signal>): (n: nat)
    ensures n <= |signals|
  {
    if signals == [] then 0
    else CountEmitted(signals[..|signals| - 1]) + (if signals[|signals| - 1].def.length > 0 then 1 else 0)
  }

  /** A `[START_SIGNALS]` line as the encoder writes it: a positive length, a placement, and a raw range of exactly 2^length values. */
  predicate WellFormedStart(r: Record)
    requires r.StartSignal?
  {
    && r.sigLength >= 1
    && r.byteIndex >= 1
    && r.bitIndex < 8
    && r.rawMin <= 0 < r.rawMax
    && r.rawMax - r.rawMin + 1 == Pow2(r.sigLength)
    && (r.typeTag == 'B' <==> r.sigLength == 1)
    && (r.typeTag == 'B' || r.typeTag == 'U' || r.typeTag == 'I')
    && (r.typeTag != 'I' ==> r.rawMin == 0)
    && (r.typeTag == 'I' ==> r.rawMin == -r.rawMax - 1)
  }

  /** Every `[START_SIGNALS]` line of `rs` is well formed. */
  predicate StartsWellFormed(rs: seq<Record>) {
    forall i | 0 <= i < |rs| && rs[i].StartSignal? :: WellFormedStart(rs[i])
  }

  lemma StartsWellFormedAppend(a: seq<Record>, b: seq<Record>)
    requires StartsWellFormed(a) && StartsWellFormed(b)
    ensures StartsWellFormed(a + b)
  {
    forall i | 0 <= i < |a + b| && (a + b)[i].StartSignal? ensures WellFormedStart((a + b)[i]) {
      if i >= |a| {
        assert (a + b)[i] == b[i - |a|];
      }
    }
  }

  /**
   * What a signal contributes: nothing for a zero-length signal, otherwise
   * a well-formed `[START_SIGNALS]` line whose byte and bit index give back
   * the start bit, then its value descriptions.
   */
  lemma SignalBlockShape(s: Signal)
    ensures s.def.length == 0 ==> SignalBlock(s) == []
    ensures s.def.length > 0 ==>
      && SignalBlock(s)[0].StartSignal?
      && SignalBlock(s)[0].sigName == s.def.name
      && SignalBlock(s)[0].sigLength == s.def.length
      && StartBitAt(SignalBlock(s)[0].byteIndex, SignalBlock(s)[0].bitIndex) == s.def.startBit
      && WellFormedStart(SignalBlock(s)[0])
      && SignalBlock(s)[1..] == ValueRecords(s.valueTable)
    ensures StartSignals(SignalBlock(s)) == if s.def.length > 0 then [StartSignalRecord(s.def)] else []
    ensures StartMsgs(SignalBlock(s)) == [] && CountEndMsgs(SignalBlock(s)) == 0
    ensures StartsWellFormed(SignalBlock(s))
  {
    if s.def.length > 0 {
      PlacementRoundTrip(s.def.startBit);
      var first := StartSignalRecord(s.def);
      var rest := ValueRecords(s.valueTable);
      assert SignalBlock(s) == [first] + rest;
      NoFrames(rest);
      SelectAppend([first], rest);
      assert StartSignals([first]) == [first] && StartMsgs([first]) == [] && CountEndMsgs([first]) == 0;
      assert StartsWellFormed([first]);
      assert StartsWellFormed(rest);
      StartsWellFormedAppend([first], rest);
    }
  }

  /**
   * Of a message's signals only those of positive length are written, each
   * as one well-formed `[START_SIGNALS]` line; so the lines are at most as
   * many as the signal count in `[START_MSG]`, which counts all signals.
   */
  lemma {:induction false} SignalRecordsEmitted(signals: seq<Signal>)
    ensures |StartSignals(SignalRecords(signals))| == CountEmitted(signals)
    ensures StartsWellFormed(SignalRecords(signals))
    ensures StartMsgs(SignalRecords(signals)) == [] && CountEndMsgs(SignalRecords(signals)) == 0
  {
    if signals != [] {
      var n := |signals| - 1;
      var s := signals[n];
      SignalRecordsEmitted(signals[..n]);
      SignalBlockShape(s);
      SelectAppend(SignalRecords(signals[..n]), SignalBlock(s));
      StartsWellFormedAppend(SignalRecords(signals[..n]), SignalBlock(s));
    }
  }

  /** The `[START_SIGNALS]` lines are as many as the signals exactly when no signal has length 0. */
  lemma {:induction false} AllSignalsWritten(signals: seq<Signal>)
    ensures CountEmitted(signals) == |signals| <==> forall j | 0 <= j < |signals| :: signals[j].def.length > 0
  {
    if signals != [] {
      var n := |signals| - 1;
      AllSignalsWritten(signals[..n]);
      assert forall j | 0 <= j < n :: signals[..n][j] == signals[j];
    }
  }

  /** A message block opens with the message's `[START_MSG]` line, then its attribute lines, and ends with `[END_MSG]`. */
  lemma MessageBlockLines(m: Message)
    ensures MessageBlock(m)[0] == StartMsg(m.name, MaskedId(m.id), m.length, |m.signals|, FrameFlag(m.id))
    ensures forall i | 0 <= i < |m.attributes| :: MessageBlock(m)[1 + i] == Attribute(m.attributes[i].0, m.attributes[i].1)
    ensures MessageBlock(m)[|MessageBlock(m)| - 1] == EndMsg
  {
    var a := AttributeRecords(m.attributes);
    var body := MessageBody(m);
    forall i | 0 <= i < |m.attributes| ensures MessageBlock(m)[1 + i] == a[i] {
      assert body[i] == a[i];
      assert ([StartMsgRecord(m)] + body)[1 + i] == body[i];
    }
  }

  /** Between `[START_MSG]` and `[END_MSG]` nothing opens or closes a message, and the signal lines are well formed. */
  lemma MessageBodyFraming(m: Message)
    ensures StartMsgs(MessageBody(m)) == [] && CountEndMsgs(MessageBody(m)) == 0
    ensures StartsWellFormed(MessageBody(m))
  {
    var a := AttributeRecords(m.attributes);
    var s := SignalRecords(m.signals);
    NoFrames(a);
    SignalRecordsEmitted(m.signals);
    SelectAppend(a, s);
    assert StartsWellFormed(a);
    StartsWellFormedAppend(a, s);
  }

  /** A message block has one `[START_MSG]` line, the message's, and one `[END_MSG]` line. */
  lemma MessageBlockFraming(m: Message)
    ensures StartMsgs(MessageBlock(m)) == [StartMsgRecord(m)]
    ensures CountEndMsgs(MessageBlock(m)) == 1
  {
    var first := [StartMsgRecord(m)];
    var body := MessageBody(m);
    MessageBodyFraming(m);
    SelectSingle(StartMsgRecord(m));
    SelectSingle(EndMsg);
    SelectAppend(first, body);
    SelectAppend(first + body, [EndMsg]);
  }

  /** The signal lines of a message block are well formed. */
  lemma MessageBlockWellFormed(m: Message)
    ensures StartsWellFormed(MessageBlock(m))
  {
    var first := [StartMsgRecord(m)];
    var body := MessageBody(m);
    MessageBodyFraming(m);
    assert StartsWellFormed(first) && StartsWellFormed([EndMsg]);
    StartsWellFormedAppend(first, body);
    StartsWellFormedAppend(first + body, [EndMsg]);
  }

  /** The header opens and closes nothing. */
  lemma HeaderFraming(p: Protocol, count: nat)
    ensures StartMsgs(Header(p, count)) == [] && CountEndMsgs(Header(p, count)) == 0
    ensures StartsWellFormed(Header(p, count))
  {
    NoFrames(Header(p, count));
  }

  /** The `[START_MSG]` lines of the messages, in order. */
  function StartMsgRecords(ms: seq<Message>): (rs: seq<Record>)
    ensures |rs| == |ms|
    ensures forall i | 0 <= i < |ms| :: rs[i] == StartMsgRecord(ms[i])
  {
    if ms == [] then []
    else
      var n := |ms| - 1;
      assert forall i | 0 <= i < n :: ms[..n][i] == ms[i];
      StartMsgRecords(ms[..n]) + [StartMsgRecord(ms[n])]
  }

  lemma {:induction false} BlocksFraming(ms: seq<Message>)
    ensures StartMsgs(Blocks(ms)) == StartMsgRecords(ms)
    ensures CountEndMsgs(Blocks(ms)) == |ms|
    ensures StartsWellFormed(Blocks(ms))
  {
    if ms != [] {
      var n := |ms| - 1;
      BlocksFraming(ms[..n]);
      MessageBlockFraming(ms[n]);
      MessageBlockWellFormed(ms[n]);
      SelectAppend(Blocks(ms[..n]), MessageBlock(ms[n]));
      StartsWellFormedAppend(Blocks(ms[..n]), MessageBlock(ms[n]));
    }
  }

  /**
   * A group's document: the header announces as many messages as the group
   * has, the document holds one `[START_MSG]` line per member, in the
   * group's order, and as many `[END_MSG]` lines, and every
   * `[START_SIGNALS]` line in it is well formed (so no zero-length signal
   * is written).
   */
  lemma DocumentFraming(p: Protocol, group: seq<Message>)
    ensures Document(p, group)[..5] == Header(p, |group|)
    ensures Document(p, group)[4] == NumberOfMessages(|group|)
    ensures StartMsgs(Document(p, group)) == StartMsgRecords(group)
    ensures CountEndMsgs(Document(p, group)) == |group|
    ensures StartsWellFormed(Document(p, group))
  {
    HeaderFraming(p, |group|);
    BlocksFraming(group);
    SelectAppend(Header(p, |group|), Blocks(group));
    StartsWellFormedAppend(Header(p, |group|), Blocks(group));
  }

  /**
   * The document for protocol `p` announces as many messages as the group
   * has and holds one `[START_MSG]` line for each input message of the
   * group, in input order, and as many `[END_MSG]` lines.
   */
  lemma DbfFraming(messages: seq<Message>, p: Protocol)
    ensures Dbf(messages, p)[4] == NumberOfMessages(|Group(messages, p)|)
    ensures StartMsgs(Dbf(messages, p)) == StartMsgRecords(Group(messages, p))
    ensures CountEndMsgs(Dbf(messages, p)) == |Group(messages, p)|
    ensures forall m | m in messages && InGroup(m, p) :: StartMsgRecord(m) in StartMsgs(Dbf(messages, p))
  {
    var g := Group(messages, p);
    DocumentFraming(p, g);
    forall m | m in messages && InGroup(m, p) ensures StartMsgRecord(m) in StartMsgs(Dbf(messages, p)) {
      GroupMembers(messages, p, m);
      var k :| 0 <= k < |g| && g[k] == m;
      assert StartMsgRecords(g)[k] == StartMsgRecord(m);
    }
  }
}
