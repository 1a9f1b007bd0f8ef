# dbc2dbf in Dafny

A model of `dbc2dbf.py`, the converter from a Vector CAN database (DBC) to
BUSMASTER database (DBF) files. It covers both stages of the converter,
`parse_dbc` and `convert_to_dbf`, and proves what each promises.

- **The DBC lines** (`model.dfy`, module `DbcModel`). Each input line has
  already been classified by the statement it matches and split into fields.
  The forms are `BA_ "ProtocolType"`, `BO_`, `SG_`, `BA_ ... BO_`, `VAL_`,
  and any other line. A line matches at most one form: `BO_`, `SG_` and
  `VAL_` lines begin differently, and the two `BA_` forms differ after the
  quoted name (` "` for the protocol type, ` BO_` for a message attribute).
- **Dictionaries** (`dicts.dfy`, module `Dicts`). A dictionary is the list of
  its items in insertion order, as the program's dictionaries behave.
  - Assigning to a present key replaces its value in place.
  - Assigning to a new key appends the item.
  - Assignment keeps the keys distinct, so a dictionary has one item per key.
  - The order matters because the encoder writes attributes and value
    descriptions in dictionary order.
- **The parser** (`parser.dfy`, module `Parser`).
  - `Step` says what one line does to the parser's variables: the finished
    messages, the message under construction, the protocol type and the
    attributes buffered per message id.
  - `Run` folds `Step` over the lines. `Parse` adds what happens after the
    loop: the last message is finished and attributes are merged.
  - The program's loops are methods proved to compute these functions:
    `ParseDbc`, with `BuildValueTable`, `AttachValueTable` and
    `MergeMessageAttributes` inside it.
- **Parser properties** (`parser_properties.dfy`, module `ParserProperties`).
  These relate `Parse` to the input lines:
  - one message per `BO_` line, holding its `SG_` lines;
  - the last protocol type;
  - the last value of each attribute;
  - the value-table rules, including that a `VAL_` line only reaches
    messages that are already finished.
- **Integer rules** (`signal_encoding.dfy`, modules `Bits32` and
  `SignalEncoding`). These are the id mask, the extended-frame flag, the byte
  and bit index, and the type tag and raw range of a signal.
- **The encoder** (`encoder.dfy`, module `Encoder`).
  - Messages are grouped by their `VFrameFormat` attribute.
  - A DBF document is modelled as a sequence of records, one per output line,
    each holding every field the line carries.
  - The two textually duplicated rendering blocks of the program are one
    method, `RenderGroup`, with the protocol as a parameter. It and its inner
    loops are proved to compute `Document`.
  - Lemmas state the framing of a document: the header's count, one
    `[START_MSG]`/`[END_MSG]` pair per message, and well-formed signal lines.
- **A worked conversion** (`scenarios.dfy`, module `Scenarios`). One small
  DBC input is followed through the parser and the encoder.

The model follows the code with one exception. The signed raw maximum is
evidently meant to be the two's-complement bound `floor(range / 2)`. The code
computes `int(range / 2)` with floating-point division, and the two differ
from 54 bits on (see Findings). `SignalEncoding.RawEncodingAsWritten` models
the code as written. The encoder renders with the corrected
`SignalEncoding.RawEncoding`, so its documents differ from the program's for
signed signals longer than 53 bits (see Left out).

## Model

| member | source | states |
|---|---|---|
| Dicts.IndexOf | dbc2dbf.py:68 | the position of the first item with the key; none exactly when no item has it |
| Dicts.Put | dbc2dbf.py:69-70 | after `d[k] = v` the key maps to `v` and every other key maps to what it mapped to before |
| Dicts.PutKeepsKeys | dbc2dbf.py:70 | assigning to a present key keeps the keys and their order |
| Dicts.PutAppends | dbc2dbf.py:69-70 | assigning to a new key appends its item at the end |
| Dicts.PutKeepsDistinct | dbc2dbf.py:69-70 | assignment keeps the keys distinct, so a dictionary holds one item per key |
| Dicts.GetOr | dbc2dbf.py:68-70 | the stored value when the key is present, the default otherwise, as the code reads the attributes of a message id or starts them empty |
| Parser.PatchTables | dbc2dbf.py:83-87 | storing a value table keeps every message's header, attributes and signal definitions, and sets the table of exactly the signals of that name in messages of that id |
| Parser.MergeAttributes | dbc2dbf.py:94-97 | the merge changes only attributes: a message whose id has buffered attributes gets exactly those, any other keeps its own |
| Parser.BuildValueTable | dbc2dbf.py:78-81 | the loop over the pairs of a `VAL_` line computes the table `BuildTable` |
| Parser.AttachValueTable | dbc2dbf.py:83-87 | the nested loop stores the table in every signal of that name in every finished message with the id, and changes nothing else (`PatchTables`) |
| Parser.MergeMessageAttributes | dbc2dbf.py:94-97 | the loop after the parse gives each message whose id has buffered attributes exactly that mapping and leaves the others unchanged |
| Parser.ParseDbc | dbc2dbf.py:8-99 | the parser's loop over the lines, the final append and the merge return exactly `Parse(lines)` |
| ParserProperties.StepEffect | dbc2dbf.py:18-87 | what one line of the loop changes: only a `BA_ "ProtocolType"` line sets the protocol type; a `BO_` line appends the message under construction, if any, to the finished messages and starts a new one with its header; an `SG_` line appends its signal to the message under construction and is dropped without one; only a `BA_ ... BO_` line touches the buffered attributes |
| ParserProperties.RunInv | dbc2dbf.py:28-87 | between lines, no finished message has attributes, and no value table has reached the message under construction |
| ParserProperties.ParseFollowsMessageLines | dbc2dbf.py:25-92 | one message per `BO_` line in source order, carrying that header and the `SG_` lines up to the next `BO_`; `SG_` lines before the first `BO_` belong to no message |
| ParserProperties.ParseProtocolType | dbc2dbf.py:11-99 | the protocol type is "CAN" without a `BA_ "ProtocolType"` line, otherwise the value of the last such line; no other line kind changes it |
| ParserProperties.ParseAttributes | dbc2dbf.py:64-97 | each attribute of a parsed message has the value of the last `BA_ ... BO_` line for its id and name; a message with no attribute line for its id has no attributes |
| ParserProperties.BuildTableLastWins | dbc2dbf.py:78-81 | in the table of a `VAL_` line each value maps to the description of its last pair |
| ParserProperties.BuildTableKeys | dbc2dbf.py:78-81 | the table of a `VAL_` line has an entry for a value exactly when one of its pairs names it |
| ParserProperties.BuildTableDistinct | dbc2dbf.py:78-81 | the table of a `VAL_` line holds one entry per raw value |
| ParserProperties.ParseAttributesDistinct | dbc2dbf.py:64-97 | a parsed message holds each attribute name once |
| ParserProperties.FinishedCount | dbc2dbf.py:28-92 | during the parse the finished messages are one fewer than the `BO_` lines read so far, and a message is under construction once one has been read |
| ParserProperties.RunKeepsSignal | dbc2dbf.py:83-87 | a signal of a finished message is unchanged unless a later `VAL_` line names its message id and signal |
| ParserProperties.ParseAttachesToFinished | dbc2dbf.py:74-87 | a `VAL_` line gives every signal of that name in an already finished message of that id exactly its table, unless a later `VAL_` line for the same id and signal follows |
| ParserProperties.ParseValueTableSkipsUnfinished | dbc2dbf.py:83-87 | a `VAL_` line changes neither the message under construction nor any later message: with or without it these come out the same |
| ParserProperties.ParseLastMessageHasNoValueTables | dbc2dbf.py:83-92 | the last parsed message never has a value table on any signal |
| SignalEncoding.MaskedId | dbc2dbf.py:118 | the emitted message id is below 2^28 |
| SignalEncoding.FrameFlag | dbc2dbf.py:117-120 | the flag is 'X' exactly when bit 31 of the id is set, otherwise 'S' |
| SignalEncoding.MaskedIdIsBitwiseAnd | dbc2dbf.py:118-119 | on a 32-bit id the arithmetic mask and flag are the bitwise `& 0x0FFFFFFF` and `& 0x80000000 > 0` |
| SignalEncoding.MaskedIdExamples | dbc2dbf.py:117-120 | id 0x80000001 gives id 1 with flag 'X'; id 0x123 gives 0x123 with flag 'S' |
| SignalEncoding.ByteIndex | dbc2dbf.py:128 | the byte index is at least 1 |
| SignalEncoding.BitIndex | dbc2dbf.py:129 | the bit index is below 8 |
| SignalEncoding.PlacementRoundTrip | dbc2dbf.py:128-129 | the byte and bit index give back the start bit as `(byte - 1) * 8 + bit` |
| SignalEncoding.PlacementUnique | dbc2dbf.py:128-129 | any byte index >= 1 and bit index < 8 are the indices of exactly one start bit |
| SignalEncoding.RawEncoding | dbc2dbf.py:132-148 | length 1 is 'B' 1..0; a wider unsigned signal is 'U' with raw minimum 0; a wider signed one is 'I' from -2^(len-1) to 2^(len-1)-1; in every case the range holds exactly 2^len values and raw minimum ≤ 0 < raw maximum |
| SignalEncoding.HalfRangeAsWritten | dbc2dbf.py:147 | `int(range/2)` as the program evaluates it: 2^(len-1)-1 up to 53 bits, 2^(len-1) from 54 to 1024 bits, an OverflowError from 1025 bits on |
| SignalEncoding.RawEncodingAsWritten | dbc2dbf.py:132-148 | the program's own computation fails (OverflowError) exactly for a signed signal of more than 1024 bits; a signed range it computes is still symmetric, raw minimum = -raw maximum - 1 |
| SignalEncoding.AsWrittenAgreesUpTo53Bits | dbc2dbf.py:142-148 | up to 53 bits the range the program computes with float division is the exact one |
| SignalEncoding.AsWrittenSignedRangeTooWide | dbc2dbf.py:145-148 | from 54 to 1024 bits the signed range as written has raw maximum 2^(len-1) and holds two values more than `len` bits can represent |
| SignalEncoding.AsWrittenSigned64Bits | dbc2dbf.py:145-148 | a 64-bit signed signal gets 2^63 and -2^63-1 as written, against 2^63-1 and -2^63 |
| Encoder.Group | dbc2dbf.py:103-104 | a group has at most as many messages as the input |
| Encoder.GroupMembers | dbc2dbf.py:103-104 | a message is in a group exactly when it is an input message with that group's frame format |
| Encoder.GroupAppend | dbc2dbf.py:103-104 | grouping keeps input order: the group of a concatenation is the concatenation of the groups |
| Encoder.GroupMembership | dbc2dbf.py:103-104 | J1939 holds the messages with frame format "3" and CAN those with "1" or "2"; no message is in both, and one without a frame format is in neither |
| Encoder.GroupSizes | dbc2dbf.py:103-104 | the two groups and the messages in neither add up to the input |
| Encoder.FrameFormat | dbc2dbf.py:103-104 | `attributes.get('VFrameFormat')`: none exactly when the message has no such attribute, otherwise the value of its item |
| Encoder.StartSignalRecord | dbc2dbf.py:128-149 | the `[START_SIGNALS]` line of a signal carries its name, length, byte order, offset, factor and unit, its byte and bit index `ByteIndex`/`BitIndex` of the start bit, and the type tag and raw range `RawEncoding` of its length and sign; so it is well formed: byte index >= 1, bit index < 8, raw minimum <= 0 < raw maximum, a range of exactly 2^length values, tag 'B' exactly for length 1, raw minimum 0 unless 'I', and raw minimum = -raw maximum - 1 for 'I' |
| Encoder.SignalBlock | dbc2dbf.py:127-153 | a zero-length signal writes no line; any other writes its `[START_SIGNALS]` line and one line per value-table entry |
| Encoder.AttributeRecords | dbc2dbf.py:123-124 | one `[ATTRIBUTE]` line per attribute, name and value, in insertion order |
| Encoder.ValueRecords | dbc2dbf.py:152-153 | one `[VALUE_DESCRIPTION]` line per table entry, description then value, in table order |
| Encoder.RenderAttributes | dbc2dbf.py:123-124 | the attribute loop writes `AttributeRecords` |
| Encoder.RenderSignal | dbc2dbf.py:127-153 | the body of the signal loop writes nothing for a zero-length signal, else its `[START_SIGNALS]` line and its value descriptions (`SignalBlock`) |
| Encoder.RenderSignals | dbc2dbf.py:126-153 | the signal loop writes the blocks of the signals in order |
| Encoder.RenderMessage | dbc2dbf.py:116-155 | the body of the message loop writes `[START_MSG]` with masked id, signal count and flag, then the attributes, the signals and `[END_MSG]` |
| Encoder.RenderGroup | dbc2dbf.py:107-213 | the five header lines with the group's protocol and size, then one message block per group member in order |
| Encoder.ConvertToDbf | dbc2dbf.py:101-217 | the J1939 and CAN contents are the documents of their groups |
| Encoder.SignalBlockShape | dbc2dbf.py:126-153 | a zero-length signal writes nothing; any other writes one well-formed `[START_SIGNALS]` line with its name and length, whose indices give back its start bit, followed by its value descriptions |
| Encoder.SignalRecordsEmitted | dbc2dbf.py:116-153 | a message writes one `[START_SIGNALS]` line per signal of positive length, all well formed, and no message frame lines |
| Encoder.AllSignalsWritten | dbc2dbf.py:116-127 | the `[START_SIGNALS]` lines match the signal count of `[START_MSG]` exactly when no signal has length 0 |
| Encoder.MessageBlockLines | dbc2dbf.py:121-155 | a message block opens with the message's `[START_MSG]`, lists its attributes next and closes with `[END_MSG]` |
| Encoder.MessageBlockFraming | dbc2dbf.py:121-155 | a message block has exactly one `[START_MSG]` line, the message's, and one `[END_MSG]` line |
| Encoder.MessageBlockWellFormed | dbc2dbf.py:126-153 | every `[START_SIGNALS]` line of a message block is well formed |
| Encoder.StartMsgRecords | dbc2dbf.py:121 | one `[START_MSG]` line per message, in order |
| Encoder.DbfFraming | dbc2dbf.py:103-155 | the document for a protocol announces its group's size, holds one `[START_MSG]` line per group member in input order and as many `[END_MSG]` lines, and has a `[START_MSG]` line for every input message with that protocol's frame format |
| Encoder.DocumentFraming | dbc2dbf.py:107-155 | a document opens with the five header lines, whose count is the group size, holds one `[START_MSG]` per group member in order and as many `[END_MSG]`, and only well-formed `[START_SIGNALS]` lines |
| Scenarios.EngineDataParsed | dbc2dbf.py:8-99 | a `BO_` line, one `SG_` line and a `VFrameFormat` attribute parse to one message with that signal and attribute, protocol "CAN" |
| Scenarios.EngineDataBlock | dbc2dbf.py:115-155 | that message is written as `[START_MSG]` EngineData,100,8,1,S, its attribute, the 16-bit unsigned signal at byte 1 bit 0 with range 65535..0, and `[END_MSG]` |
| Scenarios.EngineDataConverted | dbc2dbf.py:101-217 | the CAN document lists that one message and the J1939 document none |
| Scenarios.EngineDataGrouped | dbc2dbf.py:103-104 | frame format "1" puts the example message in the CAN group and not in the J1939 group |
| Scenarios.CanDocumentOfOne | dbc2dbf.py:163-213 | the CAN document of a single CAN message is the header for one message followed by that message's block |

## Left out

- The J1939 document (dbc2dbf.py:107-155) and the CAN document (dbc2dbf.py:163-213) are built by the same code apart from the protocol label; the table cites the J1939 copy, and one parameterised member models both.

- Reading the DBC file and writing the two DBF files (`open`, `write`) are left out as I/O. The model ends with the two record sequences, and the file names' `J1939_`/`CAN_` prefixes are not modelled. `main` and the command-line handling are left out too.
- All `print` tracing is left out; it has no effect on the result.
- Splitting the text into lines and matching the regular expressions are left out. The input is a sequence of lines that are already classified, with their fields converted to integers. `int()` and `float()` failures on malformed fields are not modelled either.
- Floating-point fields (factor, offset, physical minimum and maximum) are carried as their literal text. Python's float formatting in the `[START_SIGNALS]` line is not modelled: a DBC `0` is written as `0.0`.
- The commented-out physical-range formula does not run and is not modelled.
- The exact text of the output is not modelled: the `\r\n` before `[START_MSG]`, the `\n` join, the separators and the constant `1` inside `[START_MSG]`. Each line is a record with its variable fields.
- Encoder.StartSignalRecord, and with it every `Encoder` member that renders or describes a `[START_SIGNALS]` line (among them `SignalBlock`, `SignalBlockShape`, `SignalRecordsEmitted`, `MessageBlockWellFormed`, `RenderSignal`, `RenderSignals`, `RenderMessage`, `RenderGroup`, `ConvertToDbf`, `DbfFraming` and `DocumentFraming`): renders the raw range with the corrected `RawEncoding`. For a signed signal of 54 to 1024 bits the program writes raw maximum 2^(len-1) and raw minimum -2^(len-1)-1, while the model writes 2^(len-1)-1 and -2^(len-1). From 1025 bits on the program raises OverflowError, which the model does not reproduce.
- Encoder.ConvertToDbf: its documents differ from the program's for signed signals longer than 53 bits, and it does not fail where the program raises OverflowError.
- Encoder.DocumentFraming: the well-formedness of `[START_SIGNALS]` lines (a range of exactly 2^length values) holds for the corrected encoder, and so does the well-formedness that `SignalBlockShape`, `SignalRecordsEmitted` and `MessageBlockWellFormed` carry. For the program it holds up to 53 bits, by `SignalEncoding.AsWrittenAgreesUpTo53Bits`.
- Parser.Step, Parser.Run, Parser.Parse, Parser.BuildTable, Encoder.Document, Encoder.Dbf, Encoder.InGroup and SignalEncoding.IsExtended are specification functions without contracts of their own. What they promise is stated by the lemmas and methods about them in the table: `ParserProperties.StepEffect`, `Parser.ParseDbc`, the `ParserProperties` lemmas, `ParserProperties.BuildTableKeys`, `Encoder.DocumentFraming`, `Encoder.DbfFraming`, `Encoder.GroupMembership` and `SignalEncoding.FrameFlag`.
- Dicts.Get: states nothing of its own; its contract is that of `Dicts.IndexOf`, through which it is defined.
- SignalEncoding.MaskedId: the bitwise `&` is modelled arithmetically on unbounded ids. `MaskedIdIsBitwiseAnd` equates the two only for ids that fit in 32 bits.
- Aliasing between Python objects is not modelled. Messages that share an id share one attribute dictionary, and signals filled by one `VAL_` line share one table. Nothing mutates these afterwards, so values suffice.
- Idempotence of the conversion is not stated separately: every function of the model is deterministic.

## Findings

| source | as written | input that shows it | evidently intended | confidence | as-written member | corrected member |
|---|---|---|---|---|---|---|
| dbc2dbf.py:147-148 | `int(range/2)` divides in floating point (the same code again at lines 203-204) | a signed (`-`) signal of length 64: raw maximum 2^63 and raw minimum -2^63-1 (SignalEncoding.AsWrittenSigned64Bits); from 54 bits on the range is two values too wide (SignalEncoding.AsWrittenSignedRangeTooWide), and from 1025 bits on the division raises OverflowError | exact integer halving: raw maximum 2^(len-1)-1 and raw minimum -2^(len-1), for 64 bits 2^63-1 and -2^63 | not executed | SignalEncoding.RawEncodingAsWritten | SignalEncoding.RawEncoding |
