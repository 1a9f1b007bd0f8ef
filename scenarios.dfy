/**
 * A whole conversion on a small DBC file: one message with one 16-bit
 * unsigned signal and frame format "1" ends up in the CAN document, and the
 * J1939 document lists no message.
 */
module Scenarios {
  import opened Wrappers
  import opened Dicts
  import opened DbcModel
  import opened Parser
  import opened SignalEncoding
  import opened Encoder

  const RPM := SignalLine("RPM", 0, 16, "1", '+', Float("0.25"), Float("0"), Float("0"), Float("16383.75"),
                          "rpm", "Vector__XXX")

  /** BO_ 100 EngineData: 8 ECU, its SG_ RPM line, and BA_ "VFrameFormat" BO_ 100 1; */
  const ENGINE_DATA: seq<Line> := [
    MessageLine(100, "EngineData", 8, "ECU"),
    SignalDefLine(RPM),
    AttributeLine("VFrameFormat", 100, "1")]

  /** The message the parser builds from those lines. */
  const ENGINE_MESSAGE := Message(100, "EngineData", 8, "ECU", [Signal(RPM, [])], [("VFrameFormat", "1")])

  lemma EngineDataParsed()
    ensures Parse(ENGINE_DATA) == Parsed([ENGINE_MESSAGE], DEFAULT_PROTOCOL)
  {
    var header := NewMessage(100, "EngineData", 8, "ECU");
    var st1 := State([], Some(header), DEFAULT_PROTOCOL, []);
    var st2 := st1.(current := Some(header.(signals := [NewSignal(RPM)])));
    var st3 := st2.(attributes := [(100, [("VFrameFormat", "1")])]);
    assert Step(INIT, ENGINE_DATA[0]) == st1;
    assert Step(st1, ENGINE_DATA[1]) == st2 by {
      assert header.signals + [NewSignal(RPM)] == [NewSignal(RPM)];
    }
    assert Step(st2, ENGINE_DATA[2]) == st3;
    assert Run(INIT, ENGINE_DATA) == st3 by {
      assert ENGINE_DATA[1..][1..][1..] == [];
      assert Run(INIT, ENGINE_DATA) == Run(st1, ENGINE_DATA[1..]);
      assert Run(st1, ENGINE_DATA[1..]) == Run(st2, ENGINE_DATA[1..][1..]);
      assert Run(st2, ENGINE_DATA[1..][1..]) == Run(st3, ENGINE_DATA[1..][1..][1..]);
    }
    assert Finalize(st3) == [header.(signals := [NewSignal(RPM)])];
    assert Get(st3.attributes, 100) == Some([("VFrameFormat", "1")]);
  }

  /** Its block: the masked id is the id, the frame is standard, and the signal is unsigned with raw range 0..65535 in byte 1 from bit 0. */
  lemma EngineDataBlock()
    ensures MessageBlock(ENGINE_MESSAGE) == [
      StartMsg("EngineData", 100, 8, 1, 'S'),
      Attribute("VFrameFormat", "1"),
      StartSignal("RPM", 16, 1, 0, 'U', 65535, 0, "1", Float("0"), Float("0.25"), "rpm"),
      EndMsg]
  {
    var m := ENGINE_MESSAGE;
    assert RawEncoding(16, '+') == Encoding('U', 65535, 0) by { Pow2Of16(); }
    assert StartSignalRecord(RPM) == StartSignal("RPM", 16, 1, 0, 'U', 65535, 0, "1", Float("0"), Float("0.25"), "rpm");
    assert ValueRecords([]) == [];
    assert SignalBlock(m.signals[0]) == [StartSignal("RPM", 16, 1, 0, 'U', 65535, 0, "1", Float("0"), Float("0.25"), "rpm")];
    assert SignalRecords(m.signals) == SignalBlock(m.signals[0]) by { assert m.signals[..0] == []; }
    assert AttributeRecords(m.attributes) == [Attribute("VFrameFormat", "1")] by { assert m.attributes[..0] == []; }
    assert MaskedId(100) == 100 && FrameFlag(100) == 'S';
  }

  /** It is a CAN message, so the CAN document holds its block and the J1939 document only the header. */
  lemma EngineDataConverted()
    ensures Dbf(Parse(ENGINE_DATA).messages, Can) ==
      Header(Can, 1) + [
        StartMsg("EngineData", 100, 8, 1, 'S'),
        Attribute("VFrameFormat", "1"),
        StartSignal("RPM", 16, 1, 0, 'U', 65535, 0, "1", Float("0"), Float("0.25"), "rpm"),
        EndMsg]
    ensures Dbf(Parse(ENGINE_DATA).messages, J1939) == Header(J1939, 0)
  {
    EngineDataParsed();
    EngineDataGrouped();
    EngineDataBlock();
    var m := ENGINE_MESSAGE;
    CanDocumentOfOne(m);
  }

  /** The CAN document of a single CAN message is the header and that message's block. */
  lemma CanDocumentOfOne(m: Message)
    requires Group([m], Can) == [m]
    ensures Dbf([m], Can) == Header(Can, 1) + MessageBlock(m)
  {
    assert Blocks([m]) == MessageBlock(m) by { assert [m][..0] == []; }
  }

  /** Its frame format "1" puts the message in the CAN group only. */
  lemma EngineDataGrouped()
    ensures Group([ENGINE_MESSAGE], Can) == [ENGINE_MESSAGE]
    ensures Group([ENGINE_MESSAGE], J1939) == []
  {
    var m := ENGINE_MESSAGE;
    assert FrameFormat(m) == Some("1");
    assert [m][1..] == [];
  }
}
