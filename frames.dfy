/** The frames of the binary serial protocol as byte sequences: the requests
    the ground tool builds (esc32SendCommand, esc32GetParamId) and the replies
    its reader thread accepts (esc32Read), described over the endless stream
    of bytes the serial port delivers. */
module Frames {
  import opened Bytes
  import opened Checksum
  import opened Esc32Codes

  /** Every frame starts with 'A', 'q'. */
  const PREAMBLE: seq<Byte> := [ASCII_A, ASCII_q]

  /** A frame: preamble, the checked bytes, then the two check bytes. The
      check covers `body` only, never the preamble. */
  function Sealed(body: seq<Byte>): (f: seq<Byte>)
    ensures |f| == |body| + 4
    ensures f[..2] == PREAMBLE && f[2..|f| - 2] == body
    ensures Check(f[|f| - 2], f[|f| - 1]) == Of(f[2..|f| - 2])
  {
    var f := PREAMBLE + body + [Of(body).a, Of(body).b];
    assert f[2..|f| - 2] == body;
    f
  }

  // ------------------------------------------------------------- requests

  /** The length byte `1 + 2 + n*sizeof(float)` stored in an unsigned char. */
  function CommandLength(n: int): (b: Byte)
    ensures 0 <= n <= 2 ==> b == 3 + 4 * n
  {
    (3 + 4 * n) % 0x100
  }

  /** Number of parameters esc32SendCommand actually sends for argument `n`. */
  function ParamCount(n: int): (k: nat)
    ensures k <= 2
    ensures 0 <= n <= 2 ==> k == n
  {
    if n > 1 then 2 else if n > 0 then 1 else 0
  }

  /** The parameter bytes: `param1` when n > 0, then `param2` when n > 1. */
  function ParamBytes(param1: Float32, param2: Float32, n: int): (r: seq<Byte>)
    ensures |r| == 4 * ParamCount(n)
    ensures n > 0 ==> r[..4] == param1
    ensures n > 1 ==> r[4..] == param2
  {
    (if n > 0 then param1 else []) + (if n > 1 then param2 else [])
  }

  /** The checked bytes of a command frame. */
  function CommandBody(command: Byte, seqId: U16, param1: Float32, param2: Float32, n: int): seq<Byte>
  {
    [CommandLength(n), command] + LittleEndian16(seqId) + ParamBytes(param1, param2, n)
  }

  function CommandFrame(command: Byte, seqId: U16, param1: Float32, param2: Float32, n: int): seq<Byte>
  {
    Sealed(CommandBody(command, seqId, param1, param2, n))
  }

  /** Layout of a command frame: 'A','q', length 3+4n, command, sequence id
      (low byte first), the n parameters, then the check bytes over the
      length byte through the last parameter byte; 8+4n bytes in all. */
  lemma CommandFrameLayout(command: Byte, seqId: U16, param1: Float32, param2: Float32, n: int)
    requires 0 <= n <= 2
    ensures var f := CommandFrame(command, seqId, param1, param2, n);
      |f| == 8 + 4 * n &&
      f[0] == ASCII_A && f[1] == ASCII_q &&
      f[2] == 3 + 4 * n && f[3] == command &&
      U16Of(f[4], f[5]) == seqId &&
      f[6..6 + 4 * n] == ParamBytes(param1, param2, n) &&
      Check(f[6 + 4 * n], f[7 + 4 * n]) == Of(f[2..6 + 4 * n])
  {
    var body := CommandBody(command, seqId, param1, param2, n);
    var f := CommandFrame(command, seqId, param1, param2, n);
    assert f[2..|f| - 2] == body;
    assert f[4] == body[2] && f[5] == body[3];
    assert f[6..6 + 4 * n] == body[4..];
  }

  /** esc32GetParamId sends exactly 16 name bytes. */
  const PARAM_NAME_BYTES := 16

  /** The checked bytes of a parameter-id request: length 1+16+2,
      GET_PARAM_ID, sequence id, 16 name bytes. */
  function ParamIdBody(seqId: U16, name: seq<Byte>): seq<Byte>
    requires |name| == PARAM_NAME_BYTES
  {
    [1 + PARAM_NAME_BYTES + 2, CommandCode(GetParamId)] + LittleEndian16(seqId) + name
  }

  function ParamIdFrame(seqId: U16, name: seq<Byte>): seq<Byte>
    requires |name| == PARAM_NAME_BYTES
  {
    Sealed(ParamIdBody(seqId, name))
  }

  /** The 16 name bytes a parameter-id request should carry for the name
      `text`: the text padded with NULs, or its first 16 bytes when it is
      longer, so that exactly 16 bytes are read whatever the name's length. */
  function NameField(text: seq<Byte>): (r: seq<Byte>)
    ensures |r| == PARAM_NAME_BYTES
    ensures |text| >= PARAM_NAME_BYTES ==> r == text[..PARAM_NAME_BYTES]
  {
    if |text| >= PARAM_NAME_BYTES then text[..PARAM_NAME_BYTES]
    else text + seq(PARAM_NAME_BYTES - |text|, _ => 0)
  }

  /** The device, reading the field as a C string, gets the name back
      (cut to 16 bytes). */
  lemma NameFieldText(text: seq<Byte>)
    requires 0 !in text
    ensures CText(NameField(text)) == if |text| < PARAM_NAME_BYTES then text else text[..PARAM_NAME_BYTES]
  {
    if |text| < PARAM_NAME_BYTES {
      CTextOf(text, seq(PARAM_NAME_BYTES - |text|, _ => 0));
    } else {
      var t := text[..PARAM_NAME_BYTES];
      assert 0 !in t by {
        forall k | 0 <= k < |t| ensures t[k] != 0 {
          assert t[k] == text[k];
        }
      }
      CTextOf(t, []);
      assert t + [] == t;
    }
  }

  /** A parameter-id request is 24 bytes: length byte 19, command 15, the
      sequence id, the 16 name bytes and the check bytes over bytes 2..21. */
  lemma ParamIdFrameLayout(seqId: U16, name: seq<Byte>)
    requires |name| == PARAM_NAME_BYTES
    ensures var f := ParamIdFrame(seqId, name);
      |f| == 24 && f[..2] == PREAMBLE && f[2] == 19 && f[3] == 15 &&
      U16Of(f[4], f[5]) == seqId && f[6..22] == name &&
      Check(f[22], f[23]) == Of(f[2..22])
  {
    var f := ParamIdFrame(seqId, name);
    assert f[2..22] == ParamIdBody(seqId, name);
    assert f[4] == ParamIdBody(seqId, name)[2];
    assert f[6..22] == ParamIdBody(seqId, name)[4..];
  }

  /** Corrupting any one checked byte of a request changes its A check byte,
      so the receiver rejects it. */
  lemma RequestCorruptionDetected(body: seq<Byte>, bad: seq<Byte>, k: nat)
    requires |bad| == |body| && k < |body| && bad[k] != body[k]
    requires forall i :: 0 <= i < |body| && i != k ==> bad[i] == body[i]
    ensures Sealed(bad)[|bad| + 2] != Sealed(body)[|body| + 2]
  {
    SingleByteChangeDetected(body, bad, k);
  }

  // --------------------------------------------------------------- stream

  /** `len` bytes of the stream starting at `from`. */
  function Slice(input: nat -> Byte, from: nat, len: nat): (r: seq<Byte>)
    ensures |r| == len
    ensures forall k :: 0 <= k < len ==> r[k] == input(from + k)
  {
    seq(len, k requires 0 <= k => input(from + k))
  }

  lemma SliceSnoc(input: nat -> Byte, from: nat, len: nat)
    ensures Slice(input, from, len + 1) == Slice(input, from, len) + [input(from + len)]
  {
  }

  lemma SliceAppend(input: nat -> Byte, from: nat, m: nat, n: nat)
    ensures Slice(input, from, m + n) == Slice(input, from, m) + Slice(input, from + m, n)
  {
  }

  /** The check over two bytes read one at a time and then a run of `n`
      more is the check over all `2 + n`. */
  lemma FoldTwoThen(input: nat -> Byte, from: nat, s: Check, n: nat)
    ensures Fold(Step(Step(s, input(from)), input(from + 1)), Slice(input, from + 2, n)) == Fold(s, Slice(input, from, 2 + n))
  {
    assert Slice(input, from, 1) == [input(from)];
    assert Fold(s, [input(from)]) == Step(Fold(s, []), input(from));
    SliceSnoc(input, from, 1);
    FoldSnoc(s, [input(from)], input(from + 1));
    SliceAppend(input, from, 2, n);
    FoldAppend(s, Slice(input, from, 2), Slice(input, from + 2, n));
  }

  /** The stream holds `bytes` at `from`. */
  predicate Holds(input: nat -> Byte, from: nat, bytes: seq<Byte>)
  {
    Slice(input, from, |bytes|) == bytes
  }

  lemma HoldsPart(input: nat -> Byte, from: nat, bytes: seq<Byte>, a: nat, b: nat)
    requires Holds(input, from, bytes) && a <= b <= |bytes|
    ensures Holds(input, from + a, bytes[a..b])
    ensures forall k :: a <= k < b ==> input(from + k) == bytes[k]
  {
    forall k | a <= k < b ensures input(from + k) == bytes[k] {
      assert Slice(input, from, |bytes|)[k] == bytes[k];
    }
  }

  // ------------------------------------------------------------ replies

  /** What the reader takes from a control frame whose count byte is at `p`:
      count, command, sequence id, a parameter id when count > 3, the check
      accumulated over those bytes (from zero), and where the A check byte
      is expected. */
  datatype ControlFields = ControlFields(count: Byte, command: Byte, seqId: U16,
                                         paramId: Option<I16>, sum: Check, checkAt: nat)

  function ControlAt(input: nat -> Byte, p: nat): (r: ControlFields)
    ensures r.checkAt == p + (if r.count > 3 then 6 else 4)
    ensures r.sum == Of(Slice(input, p, r.checkAt - p))
    ensures r.paramId.Some? <==> r.count > 3
  {
    var count := input(p);
    var len := if count > 3 then 6 else 4;
    ControlFields(count, input(p + 1), U16Of(input(p + 2), input(p + 3)),
                  if count > 3 then Some(I16Of(input(p + 4), input(p + 5))) else None,
                  Of(Slice(input, p, len)), p + len)
  }

  /** Both check bytes of the control frame at `p` match. */
  predicate ControlChecks(input: nat -> Byte, p: nat)
  {
    var r := ControlAt(input, p);
    input(r.checkAt) == r.sum.a && input(r.checkAt + 1) == r.sum.b
  }

  /** The bytes of a paramId in memory order: a `short` copied as an
      `unsigned short`. */
  function ShortBytes(x: I16): (r: seq<Byte>)
    ensures |r| == 2 && I16Of(r[0], r[1]) == x
  {
    var u := if x < 0 then x + 0x1_0000 else x;
    LittleEndian16(u)
  }

  /** A reply frame of the given type byte: 'A', 'q', type, the checked
      bytes, the check bytes. */
  function Framed(frameType: Byte, body: seq<Byte>): (f: seq<Byte>)
    ensures |f| == |body| + 5
    ensures f[..3] == PREAMBLE + [frameType] && f[3..|f| - 2] == body
    ensures f[|f| - 2] == Of(body).a && f[|f| - 1] == Of(body).b
  {
    var f := PREAMBLE + [frameType] + body + [Of(body).a, Of(body).b];
    assert f[3..|f| - 2] == body;
    f
  }

  /** The checked bytes of a control reply: count (3, or 5 with a parameter
      id), command, sequence id, optional parameter id. */
  function ControlBody(command: Byte, seqId: U16, paramId: Option<I16>): (r: seq<Byte>)
    ensures |r| == (if paramId.Some? then 6 else 4)
  {
    [if paramId.Some? then 5 else 3, command] + LittleEndian16(seqId) +
    (if paramId.Some? then ShortBytes(paramId.value) else [])
  }

  /** A control reply as the firmware sends it. */
  function ControlReply(command: Byte, seqId: U16, paramId: Option<I16>): seq<Byte>
  {
    Framed(ASCII_C, ControlBody(command, seqId, paramId))
  }

  /** Round trip: a well-formed control reply in the stream is accepted and
      yields exactly the command, sequence id and parameter id it carries. */
  lemma ControlReplyAccepted(input: nat -> Byte, p: nat, command: Byte, seqId: U16, paramId: Option<I16>)
    requires Holds(input, p, ControlReply(command, seqId, paramId))
    ensures input(p) == ASCII_A && input(p + 1) == ASCII_q && input(p + 2) == ASCII_C
    ensures ControlChecks(input, p + 3)
    ensures var r := ControlAt(input, p + 3);
      r.command == command && r.seqId == seqId && r.paramId == paramId &&
      r.checkAt + 2 == p + |ControlReply(command, seqId, paramId)|
  {
    var f := ControlReply(command, seqId, paramId);
    var body := ControlBody(command, seqId, paramId);
    HoldsPart(input, p, f, 0, |f|);
    HoldsPart(input, p, f, 3, |f| - 2);
    assert input(p) == f[0] && input(p + 1) == f[1] && input(p + 2) == f[2];
    assert Slice(input, p + 3, |body|) == body;
    assert input(p + 3) == body[0] && input(p + 4) == body[1];
    assert input(p + 5) == body[2] && input(p + 6) == body[3];
    assert U16Of(body[2], body[3]) == seqId;
    if paramId.Some? {
      assert input(p + 7) == body[4] && input(p + 8) == body[5];
      assert I16Of(body[4], body[5]) == paramId.value;
    }
    var r := ControlAt(input, p + 3);
    assert r.checkAt == p + 3 + |body|;
    assert r.sum == Of(body);
    assert input(p + 3 + |body|) == f[|f| - 2];
    assert input(p + 3 + |body| + 1) == f[|f| - 1];
  }

  /** What the reader takes from a telemetry frame whose rows byte is at `p`,
      when its check starts at `start`: rows, columns, the check over the
      rows and columns bytes and the samples, and where the A check byte is
      expected. */
  datatype TelemetryFields = TelemetryFields(rows: Byte, cols: Byte, sum: Check, checkAt: nat)

  /** The bytes taken by `rows` rows of `cols` four-byte samples. */
  function SamplesLen(rows: Byte, cols: Byte): nat
  {
    4 * (rows * cols)
  }

  function TelemetryAt(input: nat -> Byte, p: nat, start: Check): (r: TelemetryFields)
    ensures r.checkAt == p + 2 + 4 * (r.rows * r.cols)
    ensures r.sum == Fold(start, Slice(input, p, r.checkAt - p))
  {
    var rows := input(p);
    var cols := input(p + 1);
    var len := 2 + SamplesLen(rows, cols);
    TelemetryFields(rows, cols, Fold(start, Slice(input, p, len)), p + len)
  }

  /** Both check bytes of the telemetry frame at `p` match. */
  predicate TelemetryChecks(input: nat -> Byte, p: nat, start: Check)
  {
    var r := TelemetryAt(input, p, start);
    input(r.checkAt) == r.sum.a && input(r.checkAt + 1) == r.sum.b
  }

  /** The four bytes of sample (row i, column j) of the frame at `p`, which
      holds `cols` columns per row. */
  function SampleAt(input: nat -> Byte, p: nat, cols: nat, i: nat, j: nat): Float32
  {
    Slice(input, p + 2 + 4 * (i * cols + j), 4)
  }

  /** The samples of a telemetry frame, row by row, four bytes each. */
  function Flatten(samples: seq<Float32>): (r: seq<Byte>)
    ensures |r| == 4 * |samples|
  {
    if samples == [] then [] else Flatten(samples[..|samples| - 1]) + samples[|samples| - 1]
  }

  lemma {:induction false} FlattenAt(samples: seq<Float32>, m: nat)
    requires m < |samples|
    ensures Flatten(samples)[4 * m..4 * m + 4] == samples[m]
    decreases |samples|
  {
    var init := samples[..|samples| - 1];
    if m < |samples| - 1 {
      FlattenAt(init, m);
      assert Flatten(samples)[4 * m..4 * m + 4] == Flatten(init)[4 * m..4 * m + 4];
    }
  }

  /** A telemetry frame as the firmware sends it: rows, columns, then the
      samples row by row. */
  function TelemetryReply(rows: Byte, cols: Byte, samples: seq<Float32>): seq<Byte>
  {
    Framed(ASCII_T, [rows, cols] + Flatten(samples))
  }

  lemma RowMajorBound(rows: nat, cols: nat, i: nat, j: nat)
    requires i < rows && j < cols
    ensures i * cols + j < rows * cols
  {
    assert i * cols + j < i * cols + cols == (i + 1) * cols <= rows * cols;
  }

  /** Round trip: a well-formed telemetry reply in the stream is accepted,
      with the rows and columns it carries. */
  lemma TelemetryReplyAccepted(input: nat -> Byte, start: nat, p: nat, rows: Byte, cols: Byte, samples: seq<Float32>)
    requires p == start + 3
    requires |samples| == rows * cols
    requires Holds(input, start, TelemetryReply(rows, cols, samples))
    ensures input(start) == ASCII_A && input(start + 1) == ASCII_q && input(start + 2) == ASCII_T
    ensures TelemetryAt(input, p, Zero).rows == rows && TelemetryAt(input, p, Zero).cols == cols
    ensures TelemetryChecks(input, p, Zero)
  {
    var f := TelemetryReply(rows, cols, samples);
    var body := [rows, cols] + Flatten(samples);
    HoldsPart(input, start, f, 0, |f|);
    HoldsPart(input, start, f, 3, |f| - 2);
    assert input(start) == f[0] && input(start + 1) == f[1] && input(start + 2) == f[2];
    assert input(p) == body[0] && input(p + 1) == body[1];
    assert Slice(input, p, |body|) == body;
    assert input(p + |body|) == f[|f| - 2];
    assert input(p + |body| + 1) == f[|f| - 1];
  }

  /** Round trip of the samples: sample (i, j) read back from the stream is
      the one sent at position i*cols + j. */
  lemma TelemetrySampleAccepted(input: nat -> Byte, start: nat, p: nat, rows: Byte, cols: Byte, samples: seq<Float32>, i: nat, j: nat)
    requires p == start + 3
    requires |samples| == rows * cols
    requires Holds(input, start, TelemetryReply(rows, cols, samples))
    requires i < rows && j < cols
    ensures i * cols + j < |samples|
    ensures SampleAt(input, p, cols, i, j) == samples[i * cols + j]
  {
    RowMajorBound(rows, cols, i, j);
    SampleInFrame(input, start, rows, cols, samples, i * cols + j);
  }

  /** Sample `m` of a telemetry reply sits `5 + 4*m` bytes into the frame. */
  lemma SampleInFrame(input: nat -> Byte, start: nat, rows: Byte, cols: Byte, samples: seq<Float32>, m: nat)
    requires Holds(input, start, TelemetryReply(rows, cols, samples))
    requires m < |samples|
    ensures Slice(input, start + 5 + 4 * m, 4) == samples[m]
  {
    var f := TelemetryReply(rows, cols, samples);
    var body := [rows, cols] + Flatten(samples);
    FlattenAt(samples, m);
    assert body[2 + 4 * m..2 + 4 * m + 4] == samples[m];
    HoldsPart(input, start, f, 5 + 4 * m, 5 + 4 * m + 4);
    assert f[5 + 4 * m..5 + 4 * m + 4] == samples[m];
  }
}
