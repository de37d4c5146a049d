/** The ground tool's side of the serial link (trunk/ground/esc32Cal.cc):
    the globals shared by the sender and the reader thread, the request
    encoders, the reader's frame decoder and the retry loops. */
module Esc32Cal {
  import opened Bytes
  import opened Checksum
  import opened Esc32Codes
  import opened Frames
  import opened Retry
  import Firmware = Config

  /** Rows per column of the telemetry log. */
  const MAX_TELEM_STORAGE := 200000
  /** The log is allocated for three columns. */
  const STORAGE_COLUMNS := 3
  const SEND_BUF_BYTES := 128
  /** Rows of `telemData`; its width is BINARY_VALUE_NUM. */
  const TELEM_ROWS := 256

  /** One step of the running average kept per telemetry column. */
  function Smooth(avg: real, x: real): real
  {
    avg - (avg - x) * 0.01
  }

  /** The running average after the samples `xs`, oldest first. */
  function Smoothed(avg: real, xs: seq<real>): real
    decreases |xs|
  {
    if xs == [] then avg else Smooth(Smoothed(avg, xs[..|xs| - 1]), xs[|xs| - 1])
  }

  /** The running average never leaves the interval that holds the old
      average and every sample. */
  lemma {:induction false} SmoothedBounded(avg: real, xs: seq<real>, lo: real, hi: real)
    requires lo <= avg <= hi
    requires forall k :: 0 <= k < |xs| ==> lo <= xs[k] <= hi
    ensures lo <= Smoothed(avg, xs) <= hi
    decreases |xs|
  {
    if xs != [] {
      SmoothedBounded(avg, xs[..|xs| - 1], lo, hi);
    }
  }

  lemma SmoothedSnoc(avg: real, xs: seq<real>, x: real)
    ensures Smoothed(avg, xs + [x]) == Smooth(Smoothed(avg, xs), x)
  {
    assert (xs + [x])[..|xs|] == xs;
  }

  /** The running maximum after the samples `xs`, oldest first. */
  function RunningMax(m: real, xs: seq<real>): real
    decreases |xs|
  {
    if xs == [] then m
    else
      var prev := RunningMax(m, xs[..|xs| - 1]);
      if prev < xs[|xs| - 1] then xs[|xs| - 1] else prev
  }

  /** The running maximum is at least the old maximum and every sample, and
      it is one of them. */
  lemma {:induction false} RunningMaxBounds(m: real, xs: seq<real>)
    ensures RunningMax(m, xs) >= m
    ensures forall k :: 0 <= k < |xs| ==> RunningMax(m, xs) >= xs[k]
    ensures RunningMax(m, xs) == m || exists k :: 0 <= k < |xs| && RunningMax(m, xs) == xs[k]
    decreases |xs|
  {
    if xs != [] {
      var init := xs[..|xs| - 1];
      RunningMaxBounds(m, init);
      assert forall k :: 0 <= k < |init| ==> xs[k] == init[k];
    }
  }

  lemma RunningMaxSnoc(m: real, xs: seq<real>, x: real)
    ensures RunningMax(m, xs + [x]) == if RunningMax(m, xs) < x then x else RunningMax(m, xs)
  {
    assert (xs + [x])[..|xs|] == xs;
  }

  /** Index of row `k` of column `j` in the telemetry log. */
  function Slot(j: nat, k: nat): nat
  {
    MAX_TELEM_STORAGE * j + k
  }

  /** Columns of the log do not overlap. */
  lemma SlotInjective(j: nat, k: nat, j': nat, k': nat)
    requires k < MAX_TELEM_STORAGE && k' < MAX_TELEM_STORAGE
    ensures Slot(j, k) == Slot(j', k') <==> j == j' && k == k'
  {
    if j < j' {
      assert Slot(j, k) < MAX_TELEM_STORAGE * (j + 1) <= Slot(j', k');
    } else if j' < j {
      assert Slot(j', k') < MAX_TELEM_STORAGE * (j' + 1) <= Slot(j, k);
    }
  }

  /** The reader's telemetry state at one moment: `telemData` by rows, the
      averages and maxima, the log and its row count. */
  datatype Telemetry = Telemetry(data: seq<seq<real>>, avgs: seq<real>, maxs: seq<real>,
                                 storage: seq<real>, num: nat)
  {
    predicate Sized()
    {
      |data| == TELEM_ROWS && (forall i :: 0 <= i < TELEM_ROWS ==> |data[i]| == BINARY_VALUE_NUM) &&
      |avgs| == BINARY_VALUE_NUM && |maxs| == BINARY_VALUE_NUM &&
      |storage| == STORAGE_COLUMNS * MAX_TELEM_STORAGE
    }
  }

  /** A frame starts at `p`: 'A' immediately followed by 'q'. */
  predicate Synced(input: nat -> Byte, p: nat)
  {
    input(p) == ASCII_A && input(p + 1) == ASCII_q
  }

  /** The control frame whose count byte is at `p`, as a reply to the
      sender's retry loop. */
  function ReplyAt(input: nat -> Byte, p: nat): Reply
  {
    var r := ControlAt(input, p);
    Control(r.count, r.command, r.seqId, if r.paramId.Some? then r.paramId.value else 0,
            ControlChecks(input, p))
  }

  /** A control reply the firmware sent, read after its "AqC", is the
      accepted reply carrying its command, sequence id and parameter id. */
  lemma ReplyOfControlReply(input: nat -> Byte, p: nat, command: Byte, seqId: U16, paramId: Option<I16>)
    requires Holds(input, p, ControlReply(command, seqId, paramId))
    ensures Synced(input, p) && input(p + 2) == ASCII_C
    ensures ReplyAt(input, p + 3) ==
      Control(if paramId.Some? then 5 else 3, command, seqId, if paramId.Some? then paramId.value else 0, true)
  {
    ControlReplyAccepted(input, p, command, seqId, paramId);
    var f := ControlReply(command, seqId, paramId);
    HoldsPart(input, p, f, 3, 4);
    assert input(p + 3) == f[3] == ControlBody(command, seqId, paramId)[0];
  }

  /** The frames of `count` attempts of one command, sequence ids counting up
      from `first`. */
  function CommandAttempts(command: Byte, param1: Float32, param2: Float32, n: int, first: U16, count: nat): seq<seq<Byte>>
  {
    if count == 0 then []
    else CommandAttempts(command, param1, param2, n, first, count - 1) + [CommandFrame(command, SeqIdOf(first, count - 1), param1, param2, n)]
  }

  /** The frames of `count` parameter-id requests. */
  function ParamIdAttempts(name: seq<Byte>, first: U16, count: nat): seq<seq<Byte>>
    requires |name| == PARAM_NAME_BYTES
  {
    if count == 0 then []
    else ParamIdAttempts(name, first, count - 1) + [ParamIdFrame(SeqIdOf(first, count - 1), name)]
  }

  /** The globals of esc32Cal.cc. The serial port is `input`, the bytes
      serialRead returns in order (it blocks, so the stream never ends), with
      `pos` counting the bytes read, and `wire`, the frames handed to
      serialWrite. `decode` reads a received float's four bytes. */
  class Link {
    var checkInA: Byte
    var checkInB: Byte
    var checkOutA: Byte
    var checkOutB: Byte
    const sendBuf: array<Byte>
    var sendBufPtr: nat
    var commandSeqId: U16
    var wire: seq<seq<Byte>>
    const input: nat -> Byte
    var pos: nat
    var lastAck: Byte
    var lastSeqId: U16
    var paramId: I16
    const telemValueAvgs: array<real>
    const telemValueMaxs: array<real>
    const telemData: array2<real>
    const telemStorage: array<real>
    var telemStorageNum: nat
    const decode: Float32 -> real

    /** The sizes the globals are declared with. */
    predicate Valid()
    {
      sendBuf.Length == SEND_BUF_BYTES &&
      telemValueAvgs.Length == BINARY_VALUE_NUM &&
      telemValueMaxs.Length == BINARY_VALUE_NUM &&
      telemData.Length0 == TELEM_ROWS && telemData.Length1 == BINARY_VALUE_NUM &&
      telemStorage.Length == STORAGE_COLUMNS * MAX_TELEM_STORAGE &&
      telemValueAvgs != telemValueMaxs && telemValueAvgs != telemStorage &&
      telemValueMaxs != telemStorage
    }

    /** Program start: zeroed globals, `commandSeqId` 1, `lastSeqId` -1 as
        an unsigned short, the log allocated zeroed. */
    constructor (input: nat -> Byte, decode: Float32 -> real)
      ensures Valid()
      ensures this.input == input && this.decode == decode
      ensures pos == 0 && wire == [] && sendBufPtr == 0
      ensures commandSeqId == 1 && lastSeqId == 0xFFFF && lastAck == 0 && paramId == 0
      ensures InCheck() == Zero && OutCheck() == Zero && telemStorageNum == 0
      ensures fresh(sendBuf) && fresh(telemValueAvgs) && fresh(telemValueMaxs)
      ensures fresh(telemData) && fresh(telemStorage)
    {
      this.input := input;
      this.decode := decode;
      sendBuf := new Byte[SEND_BUF_BYTES](_ => 0);
      telemValueAvgs := new real[BINARY_VALUE_NUM](_ => 0.0);
      telemValueMaxs := new real[BINARY_VALUE_NUM](_ => 0.0);
      telemData := new real[TELEM_ROWS, BINARY_VALUE_NUM]((_, _) => 0.0);
      telemStorage := new real[STORAGE_COLUMNS * MAX_TELEM_STORAGE](_ => 0.0);
      checkInA, checkInB, checkOutA, checkOutB := 0, 0, 0, 0;
      sendBufPtr := 0;
      commandSeqId := 1;
      wire := [];
      pos := 0;
      lastAck, lastSeqId, paramId := 0, 0xFFFF, 0;
      telemStorageNum := 0;
    }

    function InCheck(): Check
      reads this`checkInA, this`checkInB
    {
      Check(checkInA, checkInB)
    }

    function OutCheck(): Check
      reads this`checkOutA, this`checkOutB
    {
      Check(checkOutA, checkOutB)
    }

    /** What the reader thread reports to the sender. */
    function Status(): Status
      reads this`lastSeqId, this`lastAck, this`paramId
    {
      Retry.Status(lastSeqId, lastAck, paramId)
    }

    /** The bytes placed in the send buffer so far. */
    function Sent(): seq<Byte>
      requires Valid()
      reads this`sendBufPtr, sendBuf
    {
      if sendBufPtr <= SEND_BUF_BYTES then sendBuf[..sendBufPtr] else []
    }

    // ------------------------------------------------------------ sending

    /** esc32Send: hand the buffered frame to the serial port. */
    method Send()
      requires Valid() && sendBufPtr <= SEND_BUF_BYTES
      modifies this`wire
      ensures wire == old(wire) + [Sent()]
    {
      wire := wire + [sendBuf[..sendBufPtr]];
    }

    /** esc32OutChecksum */
    method OutChecksum(c: Byte)
      modifies this`checkOutA, this`checkOutB
      ensures OutCheck() == Step(old(OutCheck()), c)
    {
      checkOutA := (checkOutA + c) % 0x100;
      checkOutB := (checkOutB + checkOutA) % 0x100;
    }

    /** esc32SendChar: buffer a checked byte. */
    method SendChar(c: Byte)
      requires Valid() && sendBufPtr < SEND_BUF_BYTES
      modifies sendBuf, this`sendBufPtr, this`checkOutA, this`checkOutB
      ensures sendBufPtr == old(sendBufPtr) + 1
      ensures sendBuf[..] == old(sendBuf[..])[old(sendBufPtr) := c]
      ensures Sent() == old(Sent()) + [c]
      ensures OutCheck() == Step(old(OutCheck()), c)
    {
      sendBuf[sendBufPtr] := c;
      sendBufPtr := sendBufPtr + 1;
      OutChecksum(c);
    }

    /** esc32SendShort: the two bytes of `x` in memory order, each checked. */
    method SendShort(x: U16)
      requires Valid() && sendBufPtr + 2 <= SEND_BUF_BYTES
      modifies sendBuf, this`sendBufPtr, this`checkOutA, this`checkOutB
      ensures sendBufPtr == old(sendBufPtr) + 2
      ensures Sent() == old(Sent()) + LittleEndian16(x)
      ensures OutCheck() == Fold(old(OutCheck()), LittleEndian16(x))
    {
      var bytes := LittleEndian16(x);
      var j := 0;
      while j < 2
        invariant 0 <= j <= 2 && sendBufPtr == old(sendBufPtr) + j
        invariant Sent() == old(Sent()) + bytes[..j]
        invariant OutCheck() == Fold(old(OutCheck()), bytes[..j])
      {
        SendChar(bytes[j]);
        FoldSnoc(old(OutCheck()), bytes[..j], bytes[j]);
        assert bytes[..j + 1] == bytes[..j] + [bytes[j]];
        j := j + 1;
      }
      assert bytes[..2] == bytes;
    }

    /** esc32SendFloat: the four bytes of `f` in memory order, each checked. */
    method SendFloat(f: Float32)
      requires Valid() && sendBufPtr + 4 <= SEND_BUF_BYTES
      modifies sendBuf, this`sendBufPtr, this`checkOutA, this`checkOutB
      ensures sendBufPtr == old(sendBufPtr) + 4
      ensures Sent() == old(Sent()) + f
      ensures OutCheck() == Fold(old(OutCheck()), f)
    {
      var j := 0;
      while j < 4
        invariant 0 <= j <= 4 && sendBufPtr == old(sendBufPtr) + j
        invariant Sent() == old(Sent()) + f[..j]
        invariant OutCheck() == Fold(old(OutCheck()), f[..j])
      {
        SendChar(f[j]);
        FoldSnoc(old(OutCheck()), f[..j], f[j]);
        assert f[..j + 1] == f[..j] + [f[j]];
        j := j + 1;
      }
      assert f[..4] == f;
    }

    /** The common start of every request: both check accumulators reset,
        the buffer emptied, then 'A', 'q' buffered unchecked. */
    method StartFrame()
      requires Valid()
      modifies sendBuf, this`sendBufPtr, this`checkOutA, this`checkOutB
      ensures sendBufPtr == 2 && Sent() == PREAMBLE && OutCheck() == Zero
    {
      checkOutA, checkOutB := 0, 0;
      sendBufPtr := 0;
      sendBuf[sendBufPtr] := ASCII_A;
      sendBufPtr := sendBufPtr + 1;
      sendBuf[sendBufPtr] := ASCII_q;
      sendBufPtr := sendBufPtr + 1;
      assert Sent() == PREAMBLE;
    }

    /** Closes a frame whose checked bytes `body` are buffered after the
        preamble: appends the check bytes and sends it. */
    method Seal(ghost body: seq<Byte>)
      requires Valid() && sendBufPtr + 2 <= SEND_BUF_BYTES
      requires Sent() == PREAMBLE + body && OutCheck() == Of(body)
      modifies sendBuf, this`sendBufPtr, this`wire
      ensures sendBufPtr == old(sendBufPtr) + 2
      ensures Sent() == Sealed(body)
      ensures wire == old(wire) + [Sealed(body)]
    {
      sendBuf[sendBufPtr] := checkOutA;
      sendBufPtr := sendBufPtr + 1;
      sendBuf[sendBufPtr] := checkOutB;
      sendBufPtr := sendBufPtr + 1;
      assert Sent() == old(Sent()) + [checkOutA, checkOutB];
      Send();
    }

    /** The checked header shared by every request: length byte, command
        byte, sequence id. */
    method SendHeader(length: Byte, command: Byte, seqId: U16)
      requires Valid() && sendBufPtr == 2 && Sent() == PREAMBLE && OutCheck() == Zero
      modifies sendBuf, this`sendBufPtr, this`checkOutA, this`checkOutB
      ensures sendBufPtr == 6
      ensures Sent() == PREAMBLE + ([length, command] + LittleEndian16(seqId))
      ensures OutCheck() == Of([length, command] + LittleEndian16(seqId))
    {
      SendChar(length);
      SendChar(command);
      assert OutCheck() == Of([length, command]) by {
        FoldSnoc(Zero, [length], command);
        assert [length] + [command] == [length, command];
      }
      SendShort(seqId);
      FoldAppend(Zero, [length, command], LittleEndian16(seqId));
    }

    /** The parameters of esc32SendCommand: `param1` when n > 0, then
        `param2` when n > 1. */
    method SendParams(param1: Float32, param2: Float32, n: int)
      requires Valid() && sendBufPtr + 8 <= SEND_BUF_BYTES
      modifies sendBuf, this`sendBufPtr, this`checkOutA, this`checkOutB
      ensures sendBufPtr == old(sendBufPtr) + 4 * ParamCount(n)
      ensures Sent() == old(Sent()) + ParamBytes(param1, param2, n)
      ensures OutCheck() == Fold(old(OutCheck()), ParamBytes(param1, param2, n))
    {
      if n > 0 {
        SendFloat(param1);
      }
      if n > 1 {
        SendFloat(param2);
        FoldAppend(old(OutCheck()), param1, param2);
        assert ParamBytes(param1, param2, n) == param1 + param2;
      } else if n > 0 {
        assert ParamBytes(param1, param2, n) == param1;
      } else {
        assert ParamBytes(param1, param2, n) == [];
      }
    }

    /** esc32SendCommand: sends one command frame with the next sequence id
        and returns that id. */
    method SendCommand(command: Byte, param1: Float32, param2: Float32, n: int) returns (seqId: U16)
      requires Valid()
      modifies sendBuf, this`sendBufPtr, this`checkOutA, this`checkOutB, this`commandSeqId, this`wire
      ensures seqId == old(commandSeqId) && commandSeqId == NextU16(seqId)
      ensures Sent() == CommandFrame(command, seqId, param1, param2, n)
      ensures wire == old(wire) + [Sent()]
    {
      StartFrame();
      seqId := commandSeqId;
      commandSeqId := NextU16(commandSeqId);
      SendHeader(CommandLength(n), command, seqId);
      ghost var head := [CommandLength(n), command] + LittleEndian16(seqId);
      SendParams(param1, param2, n);
      FoldAppend(Zero, head, ParamBytes(param1, param2, n));
      Seal(head + ParamBytes(param1, param2, n));
    }

    /** The name loop of esc32GetParamId: the 16 name bytes, each checked,
        after the checked bytes `head`. */
    method SendName(ghost head: seq<Byte>, name: seq<Byte>)
      requires Valid() && |name| == PARAM_NAME_BYTES && sendBufPtr == 6
      requires Sent() == PREAMBLE + head && OutCheck() == Of(head)
      modifies sendBuf, this`sendBufPtr, this`checkOutA, this`checkOutB
      ensures sendBufPtr == 6 + PARAM_NAME_BYTES
      ensures Sent() == PREAMBLE + (head + name) && OutCheck() == Of(head + name)
    {
      var i := 0;
      assert head + name[..i] == head;
      while i < PARAM_NAME_BYTES
        invariant 0 <= i <= PARAM_NAME_BYTES && sendBufPtr == 6 + i
        invariant Sent() == PREAMBLE + (head + name[..i])
        invariant OutCheck() == Of(head + name[..i])
      {
        SendChar(name[i]);
        FoldSnoc(Zero, head + name[..i], name[i]);
        assert name[..i + 1] == name[..i] + [name[i]];
        assert head + name[..i + 1] == (head + name[..i]) + [name[i]];
        i := i + 1;
      }
      assert name[..PARAM_NAME_BYTES] == name;
    }

    /** The frame-building part of esc32GetParamId: a GET_PARAM_ID request
        carrying the 16 name bytes `name`. */
    method SendParamIdRequest(seqId: U16, name: seq<Byte>)
      requires Valid() && |name| == PARAM_NAME_BYTES
      modifies sendBuf, this`sendBufPtr, this`checkOutA, this`checkOutB, this`wire
      ensures Sent() == ParamIdFrame(seqId, name)
      ensures wire == old(wire) + [Sent()]
    {
      StartFrame();
      SendHeader(1 + PARAM_NAME_BYTES + 2, CommandCode(BinaryCommand.GetParamId), seqId);
      ghost var head := [1 + PARAM_NAME_BYTES + 2, CommandCode(BinaryCommand.GetParamId)] + LittleEndian16(seqId);
      SendName(head, name);
      assert head + name == ParamIdBody(seqId, name);
      Seal(head + name);
    }

    // ------------------------------------------------------------ reading

    /** esc32InChecksum */
    method InChecksum(c: Byte)
      modifies this`checkInA, this`checkInB
      ensures InCheck() == Step(old(InCheck()), c)
    {
      checkInA := (checkInA + c) % 0x100;
      checkInB := (checkInB + checkInA) % 0x100;
    }

    /** serialRead: the next byte of the stream, not checked. */
    method SerialRead() returns (c: Byte)
      modifies this`pos
      ensures c == input(old(pos)) && pos == old(pos) + 1
    {
      c := input(pos);
      pos := pos + 1;
    }

    /** esc32GetChar: the next byte, checked. */
    method GetChar() returns (c: Byte)
      modifies this`pos, this`checkInA, this`checkInB
      ensures c == input(old(pos)) && pos == old(pos) + 1
      ensures InCheck() == Step(old(InCheck()), c)
    {
      c := SerialRead();
      InChecksum(c);
    }

    /** esc32GetShort: two checked bytes in memory order. */
    method GetShort() returns (d: U16)
      modifies this`pos, this`checkInA, this`checkInB
      ensures d == U16Of(input(old(pos)), input(old(pos) + 1)) && pos == old(pos) + 2
      ensures InCheck() == Fold(old(InCheck()), Slice(input, old(pos), 2))
    {
      var bytes: seq<Byte> := [];
      var i := 0;
      while i < 2
        invariant 0 <= i <= 2 && pos == old(pos) + i
        invariant bytes == Slice(input, old(pos), i)
        invariant InCheck() == Fold(old(InCheck()), bytes)
      {
        var c := GetChar();
        SliceSnoc(input, old(pos), i);
        FoldSnoc(old(InCheck()), bytes, c);
        bytes := bytes + [c];
        i := i + 1;
      }
      d := U16Of(bytes[0], bytes[1]);
    }

    /** esc32GetFloat: four checked bytes read as a float. */
    method GetFloat() returns (f: real)
      modifies this`pos, this`checkInA, this`checkInB
      ensures f == decode(Slice(input, old(pos), 4)) && pos == old(pos) + 4
      ensures InCheck() == Fold(old(InCheck()), Slice(input, old(pos), 4))
    {
      var bytes: seq<Byte> := [];
      var i := 0;
      while i < 4
        invariant 0 <= i <= 4 && pos == old(pos) + i
        invariant bytes == Slice(input, old(pos), i)
        invariant InCheck() == Fold(old(InCheck()), bytes)
      {
        var c := GetChar();
        SliceSnoc(input, old(pos), i);
        FoldSnoc(old(InCheck()), bytes, c);
        bytes := bytes + [c];
        i := i + 1;
      }
      f := decode(bytes);
    }

    /** The reader's verdict on an accepted control frame: ACK and NACK
        record the sequence id and the verdict, GET_PARAM_ID only the
        sequence id, anything else is ignored. */
    method RecordControl(command: Byte, seqId: U16)
      modifies this`lastSeqId, this`lastAck
      ensures Status() == Record(old(Status()), command, seqId)
    {
      if command == BINARY_COMMAND_ACK {
        lastSeqId := seqId;
        lastAck := 1;
      } else if command == BINARY_COMMAND_NACK {
        lastSeqId := seqId;
        lastAck := 0;
      } else if command == CommandCode(BinaryCommand.GetParamId) {
        lastSeqId := seqId;
      }
    }

    /** The first four checked bytes of a control frame: count, command and
        sequence id. */
    method ReadControlHead() returns (count: Byte, command: Byte, seqId: U16)
      requires InCheck() == Zero
      modifies this`pos, this`checkInA, this`checkInB
      ensures count == input(old(pos)) && command == input(old(pos) + 1)
      ensures seqId == U16Of(input(old(pos) + 2), input(old(pos) + 3))
      ensures pos == old(pos) + 4 && InCheck() == Of(Slice(input, old(pos), 4))
    {
      ghost var p0 := pos;
      count, command := GetTwoChars();
      seqId := GetShort();
      FoldTwoThen(input, p0, Zero, 2);
    }

    /** Two checked bytes. */
    method GetTwoChars() returns (c1: Byte, c2: Byte)
      modifies this`pos, this`checkInA, this`checkInB
      ensures c1 == input(old(pos)) && c2 == input(old(pos) + 1) && pos == old(pos) + 2
      ensures InCheck() == Step(Step(old(InCheck()), c1), c2)
    {
      c1 := GetChar();
      c2 := GetChar();
    }

    /** The fields of a control frame, read with the check reset after the
        type byte 'C': count, command, sequence id and, when count > 3, the
        parameter id, which is stored before any check byte is seen. */
    method ReadControlFields() returns (count: Byte, command: Byte, seqId: U16)
      requires InCheck() == Zero
      modifies this`pos, this`checkInA, this`checkInB, this`paramId
      ensures var r := ControlAt(input, old(pos));
        count == r.count && command == r.command && seqId == r.seqId &&
        InCheck() == r.sum && pos == r.checkAt &&
        paramId == (if r.paramId.Some? then r.paramId.value else old(paramId))
    {
      ghost var p0 := pos;
      count, command, seqId := ReadControlHead();
      if count > 3 {
        ReadParamIdField(p0);
      }
    }

    /** The parameter id of a control frame starting at `p0`, stored as soon
        as it is read. */
    method ReadParamIdField(ghost p0: nat)
      requires pos == p0 + 4 && InCheck() == Of(Slice(input, p0, 4))
      modifies this`pos, this`checkInA, this`checkInB, this`paramId
      ensures paramId == I16Of(input(p0 + 4), input(p0 + 5))
      ensures pos == p0 + 6 && InCheck() == Of(Slice(input, p0, 6))
    {
      var id := GetShort();
      SliceAppend(input, p0, 4, 2);
      FoldAppend(Zero, Slice(input, p0, 4), Slice(input, p0 + 4, 2));
      paramId := ToI16(id);
    }

    /** The control branch of esc32Read, entered with the check reset after
        the type byte 'C'. Returns the command byte and whether both check
        bytes matched; a mismatching A byte is the last byte consumed. */
    method ReadControl() returns (command: Byte, accepted: bool)
      requires InCheck() == Zero
      modifies this`pos, this`checkInA, this`checkInB, this`paramId, this`lastSeqId, this`lastAck
      ensures var r := ControlAt(input, old(pos));
        command == r.command && accepted == ControlChecks(input, old(pos)) &&
        InCheck() == r.sum &&
        pos == (if input(r.checkAt) == r.sum.a then r.checkAt + 2 else r.checkAt + 1)
      ensures Status() == Apply(old(Status()), ReplyAt(input, old(pos)))
    {
      var count, seqId;
      count, command, seqId := ReadControlFields();
      accepted := ReadCheckBytes();
      if accepted {
        RecordControl(command, seqId);
      }
    }

    // ---------------------------------------------------------- telemetry

    /** Column `j` of the first `rows` rows of `telemData`. */
    function DataColumn(rows: nat, j: nat): seq<real>
      requires Valid() && rows <= TELEM_ROWS && j < BINARY_VALUE_NUM
      reads telemData
    {
      seq(rows, i requires 0 <= i < rows reads telemData => telemData[i, j])
    }

    lemma DataColumnSnoc(i: nat, j: nat)
      requires Valid() && i < TELEM_ROWS && j < BINARY_VALUE_NUM
      ensures DataColumn(i + 1, j) == DataColumn(i, j) + [telemData[i, j]]
    {
      assert forall k :: 0 <= k < i + 1 ==> DataColumn(i + 1, j)[k] == (DataColumn(i, j) + [telemData[i, j]])[k];
    }

    /** Column `j` of the telemetry frame whose rows byte is at `p`, decoded. */
    function Column(p: nat, rows: nat, cols: nat, j: nat): seq<real>
    {
      seq(rows, i requires 0 <= i < rows => decode(SampleAt(input, p, cols, i, j)))
    }

    /** Row `k` of column `j` of the telemetry log. */
    function Stored(j: nat, k: nat): real
      requires Valid() && j < STORAGE_COLUMNS && k < MAX_TELEM_STORAGE
      reads telemStorage
    {
      telemStorage[Slot(j, k)]
    }

    /** The telemetry frame whose rows byte is at `p` (check starting at
        `start`) fits the arrays it is written to: at most 16 columns for
        `telemData`, and, if it is accepted, at most 3 columns and room for
        its rows in the log. */
    predicate TelemetryFits(p: nat, start: Check)
      reads this`telemStorageNum
    {
      var t := TelemetryAt(input, p, start);
      t.cols <= BINARY_VALUE_NUM &&
      (TelemetryChecks(input, p, start) ==>
        t.cols <= STORAGE_COLUMNS && telemStorageNum + t.rows <= MAX_TELEM_STORAGE)
    }

    /** The inner samples loop: the `cols` floats of row `i` are read into
        `telemData[i, ..]`. */
    method ReadRow(ghost p: nat, i: nat, cols: nat, ghost done: nat, ghost s0: Check)
      requires Valid() && i < TELEM_ROWS && cols <= BINARY_VALUE_NUM
      requires done == i * cols && pos == p + 2 + 4 * done
      requires InCheck() == Fold(s0, Slice(input, p + 2, 4 * done))
      modifies telemData, this`pos, this`checkInA, this`checkInB
      ensures pos == p + 2 + 4 * (done + cols)
      ensures InCheck() == Fold(s0, Slice(input, p + 2, 4 * (done + cols)))
      ensures forall i', j :: 0 <= i' < TELEM_ROWS && 0 <= j < BINARY_VALUE_NUM ==>
        telemData[i', j] == if i' == i && j < cols then decode(SampleAt(input, p, cols, i, j)) else old(telemData[i', j])
    {
      ghost var p1 := pos;
      ghost var s1 := InCheck();
      var j := 0;
      while j < cols
        invariant 0 <= j <= cols && pos == p1 + 4 * j
        invariant InCheck() == Fold(s1, Slice(input, p1, 4 * j))
        invariant forall i', j' :: 0 <= i' < TELEM_ROWS && 0 <= j' < BINARY_VALUE_NUM ==>
          telemData[i', j'] == if i' == i && j' < j then decode(SampleAt(input, p, cols, i, j')) else old(telemData[i', j'])
      {
        ReadSample(p, i, cols, j, p1, s1);
        j := j + 1;
      }
      SliceAppend(input, p + 2, 4 * done, 4 * cols);
      FoldAppend(s0, Slice(input, p + 2, 4 * done), Slice(input, p1, 4 * cols));
    }

    /** One pass of the inner samples loop: sample `j` of row `i` is read
        into `telemData[i, j]`, the row having started at `p1` with the check
        `s1`. */
    method ReadSample(ghost p: nat, i: nat, cols: nat, j: nat, ghost p1: nat, ghost s1: Check)
      requires Valid() && i < TELEM_ROWS && j < cols <= BINARY_VALUE_NUM
      requires p1 == p + 2 + 4 * (i * cols) && pos == p1 + 4 * j
      requires InCheck() == Fold(s1, Slice(input, p1, 4 * j))
      modifies telemData, this`pos, this`checkInA, this`checkInB
      ensures pos == p1 + 4 * (j + 1)
      ensures InCheck() == Fold(s1, Slice(input, p1, 4 * (j + 1)))
      ensures telemData[i, j] == decode(SampleAt(input, p, cols, i, j))
      ensures forall i', j' :: 0 <= i' < TELEM_ROWS && 0 <= j' < BINARY_VALUE_NUM && (i' != i || j' != j) ==>
        telemData[i', j'] == old(telemData[i', j'])
    {
      assert SampleAt(input, p, cols, i, j) == Slice(input, pos, 4);
      var f := GetFloat();
      SliceAppend(input, p1, 4 * j, 4);
      FoldAppend(s1, Slice(input, p1, 4 * j), Slice(input, p1 + 4 * j, 4));
      telemData[i, j] := f;
    }

    /** The samples loop of the telemetry branch: row by row, each float is
        read into `telemData`. */
    method ReadSamples(ghost p: nat, rows: nat, cols: nat)
      requires Valid() && rows <= TELEM_ROWS && cols <= BINARY_VALUE_NUM && pos == p + 2
      modifies telemData, this`pos, this`checkInA, this`checkInB
      ensures pos == p + 2 + 4 * (rows * cols)
      ensures InCheck() == Fold(old(InCheck()), Slice(input, p + 2, 4 * (rows * cols)))
      ensures forall i, j :: 0 <= i < TELEM_ROWS && 0 <= j < BINARY_VALUE_NUM ==>
        telemData[i, j] == if i < rows && j < cols then decode(SampleAt(input, p, cols, i, j)) else old(telemData[i, j])
    {
      ghost var s0 := InCheck();
      ghost var done: nat := 0;
      var i := 0;
      while i < rows
        invariant 0 <= i <= rows && done == i * cols && pos == p + 2 + 4 * done
        invariant InCheck() == Fold(s0, Slice(input, p + 2, 4 * done))
        invariant forall i', j :: 0 <= i' < TELEM_ROWS && 0 <= j < BINARY_VALUE_NUM ==>
          telemData[i', j] == if i' < i && j < cols then decode(SampleAt(input, p, cols, i', j)) else old(telemData[i', j])
      {
        ReadRow(p, i, cols, done, s0);
        assert done + cols == (i + 1) * cols;
        done := done + cols;
        i := i + 1;
      }
    }

    /** The averages loop: each column's average moves 1% towards each of its
        new samples, row by row. */
    method UpdateAverages(rows: nat, cols: nat)
      requires Valid() && rows <= TELEM_ROWS && cols <= BINARY_VALUE_NUM
      modifies telemValueAvgs
      ensures forall j :: 0 <= j < BINARY_VALUE_NUM ==>
        telemValueAvgs[j] == if j < cols then Smoothed(old(telemValueAvgs[j]), DataColumn(rows, j)) else old(telemValueAvgs[j])
    {
      var i := 0;
      while i < rows
        invariant 0 <= i <= rows
        invariant forall j :: 0 <= j < BINARY_VALUE_NUM ==>
          telemValueAvgs[j] == if j < cols then Smoothed(old(telemValueAvgs[j]), DataColumn(i, j)) else old(telemValueAvgs[j])
      {
        var j := 0;
        while j < cols
          invariant 0 <= j <= cols
          invariant forall j' :: 0 <= j' < BINARY_VALUE_NUM ==>
            telemValueAvgs[j'] ==
              if j' < j then Smoothed(old(telemValueAvgs[j']), DataColumn(i + 1, j'))
              else if j' < cols then Smoothed(old(telemValueAvgs[j']), DataColumn(i, j'))
              else old(telemValueAvgs[j'])
        {
          DataColumnSnoc(i, j);
          SmoothedSnoc(old(telemValueAvgs[j]), DataColumn(i, j), telemData[i, j]);
          telemValueAvgs[j] := telemValueAvgs[j] - (telemValueAvgs[j] - telemData[i, j]) * 0.01;
          j := j + 1;
        }
        i := i + 1;
      }
    }

    /** The maxima loop: each column's maximum is raised to any larger new
        sample. */
    method UpdateMaxima(rows: nat, cols: nat)
      requires Valid() && rows <= TELEM_ROWS && cols <= BINARY_VALUE_NUM
      modifies telemValueMaxs
      ensures forall j :: 0 <= j < BINARY_VALUE_NUM ==>
        telemValueMaxs[j] == if j < cols then RunningMax(old(telemValueMaxs[j]), DataColumn(rows, j)) else old(telemValueMaxs[j])
    {
      var i := 0;
      while i < rows
        invariant 0 <= i <= rows
        invariant forall j :: 0 <= j < BINARY_VALUE_NUM ==>
          telemValueMaxs[j] == if j < cols then RunningMax(old(telemValueMaxs[j]), DataColumn(i, j)) else old(telemValueMaxs[j])
      {
        var j := 0;
        while j < cols
          invariant 0 <= j <= cols
          invariant forall j' :: 0 <= j' < BINARY_VALUE_NUM ==>
            telemValueMaxs[j'] ==
              if j' < j then RunningMax(old(telemValueMaxs[j']), DataColumn(i + 1, j'))
              else if j' < cols then RunningMax(old(telemValueMaxs[j']), DataColumn(i, j'))
              else old(telemValueMaxs[j'])
        {
          DataColumnSnoc(i, j);
          RunningMaxSnoc(old(telemValueMaxs[j]), DataColumn(i, j), telemData[i, j]);
          if telemValueMaxs[j] < telemData[i, j] {
            telemValueMaxs[j] := telemData[i, j];
          }
          assert telemValueMaxs[j] == RunningMax(old(telemValueMaxs[j]), DataColumn(i + 1, j));
          j := j + 1;
        }
        i := i + 1;
      }
    }

    /** The storage loop: row i of column j goes to slot
        MAX_TELEM_STORAGE*j + telemStorageNum, which counts one up per row.
        Nothing checks the capacity: the caller must leave room. */
    method StoreRows(rows: nat, cols: nat)
      requires Valid() && rows <= TELEM_ROWS && cols <= STORAGE_COLUMNS
      requires telemStorageNum + rows <= MAX_TELEM_STORAGE
      modifies telemStorage, this`telemStorageNum
      ensures telemStorageNum == old(telemStorageNum) + rows
      ensures forall j, k :: 0 <= j < STORAGE_COLUMNS && 0 <= k < MAX_TELEM_STORAGE ==>
        Stored(j, k) ==
          if j < cols && old(telemStorageNum) <= k < telemStorageNum then telemData[k - old(telemStorageNum), j]
          else old(Stored(j, k))
    {
      ghost var num0 := telemStorageNum;
      var i := 0;
      while i < rows
        invariant 0 <= i <= rows && telemStorageNum == num0 + i
        invariant forall j, k :: 0 <= j < STORAGE_COLUMNS && 0 <= k < MAX_TELEM_STORAGE ==>
          Stored(j, k) ==
            if j < cols && num0 <= k < telemStorageNum then telemData[k - num0, j]
            else old(Stored(j, k))
      {
        var j := 0;
        while j < cols
          invariant 0 <= j <= cols && telemStorageNum == num0 + i
          invariant forall j', k :: 0 <= j' < STORAGE_COLUMNS && 0 <= k < MAX_TELEM_STORAGE ==>
            Stored(j', k) ==
              if j' < cols && num0 <= k < telemStorageNum then telemData[k - num0, j']
              else if j' < j && k == telemStorageNum then telemData[i, j']
              else old(Stored(j', k))
        {
          forall j', k | 0 <= j' < STORAGE_COLUMNS && 0 <= k < MAX_TELEM_STORAGE
            ensures Slot(j', k) == Slot(j, telemStorageNum) <==> j' == j && k == telemStorageNum
          {
            SlotInjective(j', k, j, telemStorageNum);
          }
          telemStorage[MAX_TELEM_STORAGE * j + telemStorageNum] := telemData[i, j];
          j := j + 1;
        }
        telemStorageNum := telemStorageNum + 1;
        i := i + 1;
      }
    }

    /** The telemetry state now. */
    function Snapshot(): (s: Telemetry)
      requires Valid()
      reads this`telemStorageNum, telemData, telemValueAvgs, telemValueMaxs, telemStorage
      ensures s.Sized()
    {
      Telemetry(seq(TELEM_ROWS, i requires 0 <= i < TELEM_ROWS reads telemData =>
                  seq(BINARY_VALUE_NUM, j requires 0 <= j < BINARY_VALUE_NUM reads telemData => telemData[i, j])),
                telemValueAvgs[..], telemValueMaxs[..], telemStorage[..], telemStorageNum)
    }

    /** What the telemetry branch did, for a frame whose rows byte is at `p`
        and whose check started at `start`, from the telemetry state
        `before`: the samples are in `telemData`; an accepted frame also
        moved the averages and maxima and was appended to the log; a
        rejected one left those alone. */
    predicate TelemetryHandled(p: nat, start: Check, before: Telemetry)
      requires Valid() && before.Sized()
      reads this`pos, this`checkInA, this`checkInB, this`telemStorageNum,
        telemData, telemValueAvgs, telemValueMaxs, telemStorage
    {
      var t := TelemetryAt(input, p, start);
      var cols: nat := t.cols;
      InCheck() == t.sum &&
      pos == (if input(t.checkAt) == t.sum.a then t.checkAt + 2 else t.checkAt + 1) &&
      (forall i, j :: 0 <= i < TELEM_ROWS && 0 <= j < BINARY_VALUE_NUM ==>
        telemData[i, j] == if i < t.rows && j < cols then decode(SampleAt(input, p, cols, i, j)) else before.data[i][j]) &&
      (!TelemetryChecks(input, p, start) ==>
        telemValueAvgs[..] == before.avgs && telemValueMaxs[..] == before.maxs &&
        telemStorage[..] == before.storage && telemStorageNum == before.num) &&
      (TelemetryChecks(input, p, start) ==> TelemetryRecorded(p, t.rows, cols, before))
    }

    /** What an accepted telemetry frame of `rows` rows and `cols` columns,
        whose rows byte is at `p`, did to the telemetry state `before`: each
        of its columns moved the average and the maximum of that column, and
        its rows were appended to the log. */
    predicate TelemetryRecorded(p: nat, rows: nat, cols: nat, before: Telemetry)
      requires Valid() && before.Sized()
      reads this`telemStorageNum, telemValueAvgs, telemValueMaxs, telemStorage
    {
      (forall j :: 0 <= j < BINARY_VALUE_NUM ==>
        telemValueAvgs[j] == if j < cols then Smoothed(before.avgs[j], Column(p, rows, cols, j)) else before.avgs[j]) &&
      (forall j :: 0 <= j < BINARY_VALUE_NUM ==>
        telemValueMaxs[j] == if j < cols then RunningMax(before.maxs[j], Column(p, rows, cols, j)) else before.maxs[j]) &&
      telemStorageNum == before.num + rows &&
      (forall j, k :: 0 <= j < STORAGE_COLUMNS && 0 <= k < MAX_TELEM_STORAGE ==>
        Stored(j, k) ==
          if j < cols && before.num <= k < telemStorageNum then decode(SampleAt(input, p, cols, k - before.num, j))
          else before.storage[Slot(j, k)])
    }

    /** The frame part of the telemetry branch: rows, columns and the
        samples, read with the check continuing from `InCheck()`. */
    method ReadTelemetryFrame() returns (rows: Byte, cols: Byte)
      requires Valid() && TelemetryAt(input, pos, InCheck()).cols <= BINARY_VALUE_NUM
      modifies this`pos, this`checkInA, this`checkInB, telemData
      ensures var t := TelemetryAt(input, old(pos), old(InCheck()));
        rows == t.rows && cols == t.cols && InCheck() == t.sum && pos == t.checkAt
      ensures forall i, j :: 0 <= i < TELEM_ROWS && 0 <= j < BINARY_VALUE_NUM ==>
        telemData[i, j] == if i < rows && j < cols then decode(SampleAt(input, old(pos), cols, i, j)) else old(telemData[i, j])
    {
      ghost var p0 := pos;
      ghost var s0 := InCheck();
      rows := GetChar();
      cols := GetChar();
      ReadSamples(p0, rows, cols);
      FoldTwoThen(input, p0, s0, SamplesLen(rows, cols));
    }

    /** The two check bytes after a frame: the A byte is compared first and
        a mismatch stops there, so the B byte is then left unread. */
    method ReadCheckBytes() returns (ok: bool)
      modifies this`pos
      ensures ok == (input(old(pos)) == checkInA && input(old(pos) + 1) == checkInB)
      ensures pos == if input(old(pos)) == checkInA then old(pos) + 2 else old(pos) + 1
    {
      var a := SerialRead();
      if a != checkInA {
        return false;
      }
      var b := SerialRead();
      if b != checkInB {
        return false;
      }
      return true;
    }

    /** The updates made for an accepted telemetry frame whose rows byte is
        at `p` and whose samples are in `telemData`. */
    method RecordTelemetry(ghost p: nat, rows: Byte, cols: Byte, ghost before: Telemetry)
      requires Valid() && cols <= STORAGE_COLUMNS && telemStorageNum + rows <= MAX_TELEM_STORAGE
      requires forall i, j :: 0 <= i < rows && 0 <= j < cols ==> telemData[i, j] == decode(SampleAt(input, p, cols, i, j))
      requires before.Sized() && before.avgs == telemValueAvgs[..] && before.maxs == telemValueMaxs[..]
      requires before.storage == telemStorage[..] && before.num == telemStorageNum
      modifies telemValueAvgs, telemValueMaxs, telemStorage, this`telemStorageNum
      ensures TelemetryRecorded(p, rows, cols, before)
    {
      forall j | 0 <= j < cols ensures DataColumn(rows, j) == Column(p, rows, cols, j) {
      }
      UpdateAverages(rows, cols);
      UpdateMaxima(rows, cols);
      StoreRows(rows, cols);
    }

    /** The telemetry branch of esc32Read, entered after the type byte with
        the check accumulated so far (zero, or the control frame's check when
        a control frame carried the command byte 'T'). */
    method ReadTelemetry() returns (accepted: bool)
      requires Valid() && TelemetryFits(pos, InCheck())
      modifies this`pos, this`checkInA, this`checkInB, telemData, telemValueAvgs, telemValueMaxs,
        telemStorage, this`telemStorageNum
      ensures accepted == TelemetryChecks(input, old(pos), old(InCheck()))
      ensures TelemetryHandled(old(pos), old(InCheck()), old(Snapshot()))
    {
      ghost var before := Snapshot();
      assert forall i, j :: 0 <= i < TELEM_ROWS && 0 <= j < BINARY_VALUE_NUM ==> before.data[i][j] == telemData[i, j];
      accepted := ReadTelemetryTail(pos, InCheck(), before);
    }

    /** The telemetry branch from the frame on, from the telemetry state
        `before`, whose samples are those now in `telemData`. */
    method ReadTelemetryTail(ghost p: nat, ghost start: Check, ghost before: Telemetry) returns (accepted: bool)
      requires Valid() && TelemetryFits(p, start) && before.Sized()
      requires pos == p && InCheck() == start && before == Snapshot()
      requires forall i, j :: 0 <= i < TELEM_ROWS && 0 <= j < BINARY_VALUE_NUM ==> before.data[i][j] == telemData[i, j]
      modifies this`pos, this`checkInA, this`checkInB, telemData, telemValueAvgs, telemValueMaxs,
        telemStorage, this`telemStorageNum
      ensures accepted == TelemetryChecks(input, p, start)
      ensures TelemetryHandled(p, start, before)
    {
      var rows, cols := ReadTelemetryFrame();
      accepted := ReadCheckBytes();
      if accepted {
        RecordTelemetry(p, rows, cols, before);
      }
    }

    // ------------------------------------------------------------- reader

    /** The telemetry branch that a frame whose type byte is at `q` may
        enter fits the arrays: type 'T', or type 'C' accepted with the
        command byte 'T', which falls through to the telemetry branch with
        the control frame's check. */
    predicate FrameFits(q: nat)
      reads this`telemStorageNum
    {
      var r := ControlAt(input, q + 1);
      (input(q) == ASCII_T ==> TelemetryFits(q + 1, Zero)) &&
      (input(q) == ASCII_C && ControlChecks(input, q + 1) && r.command == ASCII_T ==>
        TelemetryFits(r.checkAt + 2, r.sum))
    }

    /** What the control branch did for the control frame at `p`, from the
        status `st0` and the telemetry state `before`: the reply was applied
        to the status; an accepted frame whose command byte is 'T' went on
        into the telemetry branch with the control frame's check, and any
        other frame left the telemetry state alone. */
    predicate ControlHandled(p: nat, st0: Status, before: Telemetry)
      requires Valid() && before.Sized()
      reads this`pos, this`checkInA, this`checkInB, this`paramId, this`lastSeqId, this`lastAck,
        this`telemStorageNum, telemData, telemValueAvgs, telemValueMaxs, telemStorage
    {
      var r := ControlAt(input, p);
      Status() == Apply(st0, ReplyAt(input, p)) &&
      if ControlChecks(input, p) && r.command == ASCII_T then TelemetryHandled(r.checkAt + 2, r.sum, before)
      else
        InCheck() == r.sum && Snapshot() == before &&
        pos == (if input(r.checkAt) == r.sum.a then r.checkAt + 2 else r.checkAt + 1)
    }

    /** What the part of a pass after "Aq" did for the type byte at `q`:
        'C' selects the control branch, 'T' the telemetry branch, and any
        other type byte is consumed with nothing else changed but the
        check, which it resets. */
    predicate FrameHandled(q: nat, st0: Status, before: Telemetry)
      requires Valid() && before.Sized()
      reads this`pos, this`checkInA, this`checkInB, this`paramId, this`lastSeqId, this`lastAck,
        this`telemStorageNum, telemData, telemValueAvgs, telemValueMaxs, telemStorage
    {
      (input(q) == ASCII_C ==> ControlHandled(q + 1, st0, before)) &&
      (input(q) == ASCII_T ==> Status() == st0 && TelemetryHandled(q + 1, Zero, before)) &&
      (input(q) != ASCII_C && input(q) != ASCII_T ==>
        pos == q + 1 && InCheck() == Zero && Status() == st0 && Snapshot() == before)
    }

    /** The control branch entered after the type byte 'C', followed, for
        an accepted frame whose command byte is 'T', by the telemetry branch,
        which then continues the control frame's check. */
    method ReadControlFrame()
      requires Valid() && InCheck() == Zero
      requires var r := ControlAt(input, pos);
        ControlChecks(input, pos) && r.command == ASCII_T ==> TelemetryFits(r.checkAt + 2, r.sum)
      modifies this`pos, this`checkInA, this`checkInB, this`paramId, this`lastSeqId, this`lastAck,
        telemData, telemValueAvgs, telemValueMaxs, telemStorage, this`telemStorageNum
      ensures ControlHandled(old(pos), old(Status()), old(Snapshot()))
    {
      var command, accepted := ReadControl();
      if accepted && command == ASCII_T {
        var ok := ReadTelemetry();
      }
    }

    /** The part of a pass after "Aq": the type byte resets the check and
        selects the control or the telemetry branch; any other type byte is
        skipped. */
    method ReadFrame()
      requires Valid() && FrameFits(pos)
      modifies this`pos, this`checkInA, this`checkInB, this`paramId, this`lastSeqId, this`lastAck,
        telemData, telemValueAvgs, telemValueMaxs, telemStorage, this`telemStorageNum
      ensures FrameHandled(old(pos), old(Status()), old(Snapshot()))
    {
      ghost var q, st0, before := pos, Status(), Snapshot();
      var c := GetChar();
      checkInA, checkInB := 0, 0;
      if c == ASCII_C {
        ReadControlBranch(q, st0, before);
      } else if c == ASCII_T {
        ReadTelemetryBranch(q, st0, before);
      }
    }

    /** ReadFrame after the type byte 'C' at `q`. */
    method ReadControlBranch(ghost q: nat, ghost st0: Status, ghost before: Telemetry)
      requires Valid() && FrameFits(q) && input(q) == ASCII_C && pos == q + 1 && InCheck() == Zero
      requires before.Sized() && Status() == st0 && Snapshot() == before
      modifies this`pos, this`checkInA, this`checkInB, this`paramId, this`lastSeqId, this`lastAck,
        telemData, telemValueAvgs, telemValueMaxs, telemStorage, this`telemStorageNum
      ensures FrameHandled(q, st0, before)
    {
      ReadControlFrame();
    }

    /** ReadFrame after the type byte 'T' at `q`. */
    method ReadTelemetryBranch(ghost q: nat, ghost st0: Status, ghost before: Telemetry)
      requires Valid() && FrameFits(q) && input(q) == ASCII_T && pos == q + 1 && InCheck() == Zero
      requires before.Sized() && Status() == st0 && Snapshot() == before
      modifies this`pos, this`checkInA, this`checkInB, telemData, telemValueAvgs, telemValueMaxs,
        telemStorage, this`telemStorageNum
      ensures FrameHandled(q, st0, before)
    {
      var accepted := ReadTelemetry();
    }

    /** One pass of esc32Read's endless loop, from `thread_read_start` to
        the next jump back there. A byte other than 'A' is skipped; an 'A'
        not followed by 'q' is skipped together with that byte, so "AAq"
        does not synchronise on its second 'A'; after "Aq" the frame is
        read. */
    method ReadOnce()
      requires Valid() && (Synced(input, pos) ==> FrameFits(pos + 2))
      modifies this`pos, this`checkInA, this`checkInB, this`paramId, this`lastSeqId, this`lastAck,
        telemData, telemValueAvgs, telemValueMaxs, telemStorage, this`telemStorageNum
      ensures pos > old(pos)
      ensures input(old(pos)) != ASCII_A ==>
        pos == old(pos) + 1 && InCheck() == Step(old(InCheck()), input(old(pos))) &&
        Status() == old(Status()) &&
        unchanged(telemData, telemValueAvgs, telemValueMaxs, telemStorage, this`telemStorageNum)
      ensures input(old(pos)) == ASCII_A && input(old(pos) + 1) != ASCII_q ==>
        pos == old(pos) + 2 && InCheck() == Step(Step(old(InCheck()), ASCII_A), input(old(pos) + 1)) &&
        Status() == old(Status()) &&
        unchanged(telemData, telemValueAvgs, telemValueMaxs, telemStorage, this`telemStorageNum)
      ensures Synced(input, old(pos)) ==> FrameHandled(old(pos) + 2, old(Status()), old(Snapshot()))
    {
      ghost var before := Snapshot();
      var c := GetChar();
      if c != ASCII_A {
        return;
      }
      c := GetChar();
      if c != ASCII_q {
        return;
      }
      assert Snapshot() == before;
      ReadFrame();
    }

    // ------------------------------------------------------------ retries

    /** The reader thread's handling of one reply, as the sender observes
        it between two polls: `ReadControl` has this effect for the reply
        `ReplyAt(input, pos)`, which for a reply the firmware sent is given
        by `ReplyOfControlReply`. */
    method HandleReply(r: Reply)
      modifies this`lastSeqId, this`lastAck, this`paramId
      ensures Status() == Apply(old(Status()), r)
    {
      if r.Control? {
        if r.count > 3 {
          paramId := r.paramId;
        }
        if r.checksOk {
          RecordControl(r.command, r.seqId);
        }
      }
    }

    /** The poll loop of one attempt: sleep, then see whether `seqId` was
        answered, at most 500 times. Returns the number of polls. */
    method Wait(seqId: U16, replies: nat -> Reply) returns (polls: nat)
      modifies this`lastSeqId, this`lastAck, this`paramId
      ensures (Status(), polls) == Poll(old(Status()), seqId, replies, 0)
    {
      ghost var st0 := Status();
      polls := 0;
      HandleReply(replies(polls));
      polls := polls + 1;
      while lastSeqId != seqId && polls < POLLS
        invariant 1 <= polls <= POLLS
        invariant Poll(st0, seqId, replies, 0) ==
          if lastSeqId != seqId && polls < POLLS then Poll(Status(), seqId, replies, polls) else (Status(), polls)
        decreases POLLS - polls
      {
        HandleReply(replies(polls));
        polls := polls + 1;
      }
    }

    /** One attempt of esc32SendReliably: a command frame, then the polls. */
    method CommandAttempt(command: Byte, param1: Float32, param2: Float32, n: int,
                          replies: nat -> nat -> Reply, j: nat, ghost first: U16, ghost w0: seq<seq<Byte>>)
      returns (seqId: U16)
      requires Valid() && j < ATTEMPTS
      requires commandSeqId == SeqIdOf(first, j) && wire == w0 + CommandAttempts(command, param1, param2, n, first, j)
      modifies sendBuf, this`sendBufPtr, this`checkOutA, this`checkOutB, this`commandSeqId, this`wire,
        this`lastSeqId, this`lastAck, this`paramId
      ensures seqId == SeqIdOf(first, j) && commandSeqId == SeqIdOf(first, j + 1)
      ensures wire == w0 + CommandAttempts(command, param1, param2, n, first, j + 1)
      ensures Status() == Poll(old(Status()), seqId, replies(j), 0).0
      ensures Run(old(Status()), first, replies, j) ==
        if lastSeqId != seqId && j + 1 < ATTEMPTS then Run(Status(), first, replies, j + 1)
        else Outcome(Status(), j + 1, seqId)
    {
      seqId := SendCommand(command, param1, param2, n);
      SeqIdOfSucc(first, j);
      var polls := Wait(seqId, replies(j));
    }

    /** esc32SendReliably: up to five attempts, each with a fresh sequence
        id, until one is answered; returns the recorded verdict (1 for ACK)
        if the last one was answered, else 0. `replies(k)` are the replies
        during attempt `k`. */
    method SendReliably(command: Byte, param1: Float32, param2: Float32, n: int, replies: nat -> nat -> Reply)
      returns (ret: int)
      requires Valid()
      modifies sendBuf, this`sendBufPtr, this`checkOutA, this`checkOutB, this`commandSeqId, this`wire,
        this`lastSeqId, this`lastAck, this`paramId
      ensures var o := Run(old(Status()), old(commandSeqId), replies, 0);
        ret == ReliableResult(o) && Status() == o.status &&
        commandSeqId == SeqIdOf(old(commandSeqId), o.attempts) &&
        wire == old(wire) + CommandAttempts(command, param1, param2, n, old(commandSeqId), o.attempts)
    {
      ghost var st0 := Status();
      ghost var q0 := commandSeqId;
      ghost var w0 := wire;
      var attempts := 0;
      assert wire == w0 + [];
      var seqId := CommandAttempt(command, param1, param2, n, replies, attempts, q0, w0);
      attempts := attempts + 1;
      while lastSeqId != seqId && attempts < ATTEMPTS
        invariant 1 <= attempts <= ATTEMPTS
        invariant seqId == SeqIdOf(q0, attempts - 1) && commandSeqId == SeqIdOf(q0, attempts)
        invariant wire == w0 + CommandAttempts(command, param1, param2, n, q0, attempts)
        invariant Run(st0, q0, replies, 0) ==
          if lastSeqId != seqId && attempts < ATTEMPTS then Run(Status(), q0, replies, attempts)
          else Outcome(Status(), attempts, seqId)
        decreases ATTEMPTS - attempts
      {
        seqId := CommandAttempt(command, param1, param2, n, replies, attempts, q0, w0);
        attempts := attempts + 1;
      }
      if lastSeqId == seqId {
        ret := lastAck;
      } else {
        ret := 0;
      }
    }

    /** The sending half of one attempt of esc32GetParamId: the next
        sequence id is taken and the request carrying the 16 name bytes
        sent. */
    method SendParamIdAttempt(name: seq<Byte>, j: nat, ghost first: U16, ghost w0: seq<seq<Byte>>)
      returns (seqId: U16)
      requires Valid() && |name| == PARAM_NAME_BYTES
      requires commandSeqId == SeqIdOf(first, j) && wire == w0 + ParamIdAttempts(name, first, j)
      modifies sendBuf, this`sendBufPtr, this`checkOutA, this`checkOutB, this`commandSeqId, this`wire
      ensures seqId == SeqIdOf(first, j) && commandSeqId == SeqIdOf(first, j + 1) == NextU16(seqId)
      ensures wire == w0 + ParamIdAttempts(name, first, j + 1)
    {
      seqId := commandSeqId;
      commandSeqId := NextU16(commandSeqId);
      SeqIdOfSucc(first, j);
      SendParamIdRequest(seqId, name);
      AppendAssoc(w0, ParamIdAttempts(name, first, j), [ParamIdFrame(seqId, name)]);
    }

    /** One attempt of esc32GetParamId: a request carrying the 16 name
        bytes, then the polls. */
    method ParamIdAttempt(name: seq<Byte>, replies: nat -> nat -> Reply, j: nat, ghost first: U16, ghost w0: seq<seq<Byte>>)
      returns (seqId: U16)
      requires Valid() && |name| == PARAM_NAME_BYTES && j < ATTEMPTS
      requires commandSeqId == SeqIdOf(first, j) && wire == w0 + ParamIdAttempts(name, first, j)
      modifies sendBuf, this`sendBufPtr, this`checkOutA, this`checkOutB, this`commandSeqId, this`wire,
        this`lastSeqId, this`lastAck, this`paramId
      ensures seqId == SeqIdOf(first, j) && commandSeqId == SeqIdOf(first, j + 1)
      ensures wire == w0 + ParamIdAttempts(name, first, j + 1)
      ensures Status() == Poll(old(Status()), seqId, replies(j), 0).0
      ensures Run(old(Status()), first, replies, j) ==
        if lastSeqId != seqId && j + 1 < ATTEMPTS then Run(Status(), first, replies, j + 1)
        else Outcome(Status(), j + 1, seqId)
    {
      seqId := SendParamIdAttempt(name, j, first, w0);
      var polls := Wait(seqId, replies(j));
    }

    /** esc32GetParamId as written: the request always carries 16 bytes read
        from `name`, so `name` must point at 16 readable bytes. Returns the
        id the device answered with, or -1 after five unanswered attempts. */
    method GetParamId(name: seq<Byte>, replies: nat -> nat -> Reply) returns (id: I16)
      requires Valid() && |name| >= PARAM_NAME_BYTES
      modifies sendBuf, this`sendBufPtr, this`checkOutA, this`checkOutB, this`commandSeqId, this`wire,
        this`lastSeqId, this`lastAck, this`paramId
      ensures var o := Run(old(Status()), old(commandSeqId), replies, 0);
        id == ParamIdResult(o) && Status() == o.status &&
        commandSeqId == SeqIdOf(old(commandSeqId), o.attempts) &&
        wire == old(wire) + ParamIdAttempts(name[..PARAM_NAME_BYTES], old(commandSeqId), o.attempts)
    {
      ghost var st0 := Status();
      ghost var q0 := commandSeqId;
      ghost var w0 := wire;
      var field := name[..PARAM_NAME_BYTES];
      var attempts := 0;
      assert wire == w0 + [];
      var seqId := ParamIdAttempt(field, replies, attempts, q0, w0);
      attempts := attempts + 1;
      while lastSeqId != seqId && attempts < ATTEMPTS
        invariant 1 <= attempts <= ATTEMPTS
        invariant seqId == SeqIdOf(q0, attempts - 1) && commandSeqId == SeqIdOf(q0, attempts)
        invariant wire == w0 + ParamIdAttempts(field, q0, attempts)
        invariant Run(st0, q0, replies, 0) ==
          if lastSeqId != seqId && attempts < ATTEMPTS then Run(Status(), q0, replies, attempts)
          else Outcome(Status(), attempts, seqId)
        decreases ATTEMPTS - attempts
      {
        seqId := ParamIdAttempt(field, replies, attempts, q0, w0);
        attempts := attempts + 1;
      }
      if lastSeqId == seqId {
        id := paramId;
      } else {
        id := -1;
      }
    }

    /** esc32SetParamByName, with the name passed as its 16-byte field
        `NameField(text)` rather than as the bare string: looks the id up,
        gives -1 without sending a SET if there is none, and otherwise sets
        the parameter reliably. `toFloat` is the conversion of the id to the
        float parameter. */
    method SetParamByName(text: seq<Byte>, value: Float32, toFloat: I16 -> Float32,
                          idReplies: nat -> nat -> Reply, setReplies: nat -> nat -> Reply) returns (ret: int)
      requires Valid()
      modifies sendBuf, this`sendBufPtr, this`checkOutA, this`checkOutB, this`commandSeqId, this`wire,
        this`lastSeqId, this`lastAck, this`paramId
      ensures var q0 := old(commandSeqId);
        var oi := Run(old(Status()), q0, idReplies, 0);
        var id := ParamIdResult(oi);
        var q1 := SeqIdOf(q0, oi.attempts);
        var ids := old(wire) + ParamIdAttempts(NameField(text), q0, oi.attempts);
        if id < 0 then
          ret == -1 && Status() == oi.status && commandSeqId == q1 && wire == ids
        else
          var os := Run(oi.status, q1, setReplies, 0);
          ret == ReliableResult(os) && Status() == os.status &&
          commandSeqId == SeqIdOf(q1, os.attempts) &&
          wire == ids + CommandAttempts(CommandCode(BinaryCommand.Set), toFloat(id as I16), value, 2, q1, os.attempts)
    {
      var field := NameField(text);
      assert field[..PARAM_NAME_BYTES] == field;
      var id := GetParamId(field, idReplies);
      if id < 0 {
        return -1;
      }
      ret := SendReliably(CommandCode(BinaryCommand.Set), toFloat(id), value, 2, setReplies);
    }
  }

  /** The name esc32Cal's main loop looks up is the literal "MAX_CURRENT":
      twelve bytes with its NUL, fewer than the 16 esc32GetParamId reads. */
  lemma MaxCurrentLiteralTooShort()
    ensures |Literal("MAX_CURRENT")| == 12 < PARAM_NAME_BYTES
  {
  }

  /** Sent as its name field, "MAX_CURRENT" is the name the firmware's
      lookup resolves to parameter 20, the header's MAX_CURRENT. */
  lemma MaxCurrentFieldResolves()
    ensures Firmware.GetId(Chars(CText(NameField(Ascii("MAX_CURRENT"))))) == 20
    ensures ParamId(ConfigParameter.MAX_CURRENT) == 20
  {
    var text := Ascii("MAX_CURRENT");
    assert 0 !in text by {
      forall k | 0 <= k < |text| ensures text[k] != 0 {
        assert text[k] == "MAX_CURRENT"[k] as int;
      }
    }
    NameFieldText(text);
    AsciiChars("MAX_CURRENT");
    Firmware.MaxCurrentIs20();
  }
}
