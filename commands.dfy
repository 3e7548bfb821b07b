/**
 * The control panel's command encoder (`cp_build_command`): a logical command
 * becomes the payload bytes of one OSDP command, or is refused before anything
 * is written.
 */
module Commands {
  import opened Bytes

  // Command codes of the OSDP standard.
  const CMD_POLL: byte := 0x60
  const CMD_ID: byte := 0x61
  const CMD_CAP: byte := 0x62
  const CMD_DIAG: byte := 0x63
  const CMD_LSTAT: byte := 0x64
  const CMD_ISTAT: byte := 0x65
  const CMD_OSTAT: byte := 0x66
  const CMD_RSTAT: byte := 0x67
  const CMD_OUT: byte := 0x68
  const CMD_LED: byte := 0x69
  const CMD_BUZ: byte := 0x6A
  const CMD_TEXT: byte := 0x6B
  const CMD_RMODE: byte := 0x6C
  const CMD_COMSET: byte := 0x6E
  const CMD_XMIT: byte := 0x70
  const CMD_SPE: byte := 0x72
  const CMD_CONT: byte := 0x79
  const CMD_SCDONE: byte := 0xA0
  const CMD_XWR: byte := 0xA1

  /** Commands sent as the code alone. */
  const BARE_CMDS: set<byte> := {CMD_POLL, CMD_LSTAT, CMD_ISTAT, CMD_OSTAT, CMD_RSTAT}
  /** Commands sent as the code and one reserved zero byte. */
  const RESERVED_BYTE_CMDS: set<byte> := {CMD_ID, CMD_CAP, CMD_DIAG}
  /** Commands the encoder refuses as obsolete. */
  const OBSOLETE_CMDS: set<byte> := {CMD_SCDONE, CMD_XWR, CMD_SPE, CMD_CONT, CMD_RMODE, CMD_XMIT}
  /** Size of the payload member, beyond the command header, that each payload-bearing command must declare. */
  const PAYLOAD_SIZE: map<byte, int> := map[CMD_OUT := 4, CMD_LED := 16, CMD_BUZ := 5, CMD_TEXT := 38, CMD_COMSET := 5]

  /** `sizeof(struct cmd)`: the length byte and the code byte that precede the payload. */
  const CMD_HEADER_SIZE: int := 2
  /** Capacity of the text member's character array. */
  const TEXT_CAPACITY: int := 32
  /** The longest payload the encoder writes: a text command with a full character array. */
  const MAX_COMMAND_BYTES: int := 7 + TEXT_CAPACITY

  type u16 = x: int | 0 <= x < 0x1_0000
  type u32 = x: int | 0 <= x < 0x1_0000_0000

  datatype LedParams = LedParams(controlCode: byte, onCount: byte, offCount: byte,
                                 onColor: byte, offColor: byte, timer: u16)

  /** The member of the command's payload union. */
  datatype CmdData =
    | NoData
    | Output(outputNo: byte, controlCode: byte, tmrCount: u16)
    | Led(reader: byte, number: byte, temporary: LedParams, permanent: LedParams)
    | Buzzer(reader: byte, toneCode: byte, onCount: byte, offCount: byte, repCount: byte)
    | Text(reader: byte, command: byte, tempTime: byte, offsetRow: byte, offsetCol: byte,
           length: byte, chars: seq<byte>)
    | ComSet(addr: byte, baud: u32)

  /** A logical command: its declared total size, its code and its payload. */
  datatype Command = Command(len: int, id: byte, data: CmdData)

  /**
   * The payload union is read through the member the code selects; a text
   * member holds its fixed character array and a length that stays inside it.
   */
  predicate DataAgrees(c: Command)
  {
    && (c.id == CMD_OUT ==> c.data.Output?)
    && (c.id == CMD_LED ==> c.data.Led?)
    && (c.id == CMD_BUZ ==> c.data.Buzzer?)
    && (c.id == CMD_TEXT ==> c.data.Text? && |c.data.chars| == TEXT_CAPACITY && c.data.length <= TEXT_CAPACITY)
    && (c.id == CMD_COMSET ==> c.data.ComSet?)
  }

  /** The encoder accepts a command exactly when this holds. */
  predicate Accepted(c: Command)
  {
    || c.id in BARE_CMDS
    || c.id in RESERVED_BYTE_CMDS
    || (c.id in PAYLOAD_SIZE && c.len == CMD_HEADER_SIZE + PAYLOAD_SIZE[c.id])
  }

  /** Number of payload bytes an accepted command occupies on the wire. */
  function WireLength(c: Command): nat
    requires DataAgrees(c)
  {
    if c.id in BARE_CMDS then 1
    else if c.id in RESERVED_BYTE_CMDS then 2
    else if c.id == CMD_OUT then 5
    else if c.id == CMD_LED then 15
    else if c.id == CMD_BUZ then 6
    else if c.id == CMD_TEXT then 7 + c.data.length
    else 6
  }

  function LedTemporaryBytes(p: LedParams): seq<byte>
  {
    [p.controlCode, p.onCount, p.offCount, p.onColor, p.offColor] + LeBytes(p.timer, 2)
  }

  /** The permanent LED settings are sent without a timer. */
  function LedPermanentBytes(p: LedParams): seq<byte>
  {
    [p.controlCode, p.onCount, p.offCount, p.onColor, p.offColor]
  }

  /** Field layout of a payload-bearing command. */
  function Layout(id: byte, d: CmdData): (r: seq<byte>)
    requires d.Text? ==> d.length <= |d.chars|
    ensures |r| >= 1 && r[0] == id
    ensures d.Text? ==> |r| == 7 + d.length && r[7..] == d.chars[..d.length]
  {
    match d
    case NoData => [id]
    case Output(no, cc, tmr) => [id, no, cc] + LeBytes(tmr, 2)
    case Led(reader, number, temp, perm) =>
      [id, reader, number] + LedTemporaryBytes(temp) + LedPermanentBytes(perm)
    case Buzzer(reader, tone, on, off, rep) => [id, reader, tone, on, off, rep]
    case Text(reader, command, tempTime, row, col, length, chars) =>
      [id, reader, command, tempTime, row, col, length] + chars[..length]
    case ComSet(addr, baud) => [id, addr] + LeBytes(baud, 4)
  }

  /** What `cp_build_command` writes for a command, or `None` when it returns -1. */
  function Encode(c: Command): (r: Option<seq<byte>>)
    requires DataAgrees(c)
    ensures r.Some? <==> Accepted(c)
    ensures r.Some? ==> |r.value| == WireLength(c) <= MAX_COMMAND_BYTES && r.value[0] == c.id
  {
    if c.id in BARE_CMDS then Some([c.id])
    else if c.id in RESERVED_BYTE_CMDS then Some([c.id, 0])
    else if c.id in PAYLOAD_SIZE && c.len == CMD_HEADER_SIZE + PAYLOAD_SIZE[c.id] then
      Some(Layout(c.id, c.data))
    else None
  }

  /** Obsolete and unknown codes, and payload-bearing commands with a wrong declared size, are refused. */
  lemma RefusedCommands(c: Command)
    requires DataAgrees(c)
    ensures c.id in OBSOLETE_CMDS ==> Encode(c) == None
    ensures c.id !in BARE_CMDS + RESERVED_BYTE_CMDS + PAYLOAD_SIZE.Keys ==> Encode(c) == None
    ensures c.id in PAYLOAD_SIZE && c.len != CMD_HEADER_SIZE + PAYLOAD_SIZE[c.id] ==> Encode(c) == None
  {
  }

  /**
   * The accepted layouts byte by byte: the code alone, the code and a zero,
   * and for the payload-bearing commands their fields in order, multi-byte
   * values least significant byte first.
   */
  lemma EncodedLayouts(c: Command)
    requires DataAgrees(c) && Accepted(c)
    ensures c.id in BARE_CMDS ==> Encode(c).value == [c.id]
    ensures c.id in RESERVED_BYTE_CMDS ==> Encode(c).value == [c.id, 0]
    ensures c.id == CMD_OUT ==>
              Encode(c).value == [c.id, c.data.outputNo, c.data.controlCode, c.data.tmrCount % 256, c.data.tmrCount / 256]
    ensures c.id == CMD_LED ==>
              var t := c.data.temporary;
              var p := c.data.permanent;
              Encode(c).value == [c.id, c.data.reader, c.data.number,
                                  t.controlCode, t.onCount, t.offCount, t.onColor, t.offColor, t.timer % 256, t.timer / 256,
                                  p.controlCode, p.onCount, p.offCount, p.onColor, p.offColor]
    ensures c.id == CMD_BUZ ==>
              Encode(c).value == [c.id, c.data.reader, c.data.toneCode, c.data.onCount, c.data.offCount, c.data.repCount]
    ensures c.id == CMD_TEXT ==>
              Encode(c).value == [c.id, c.data.reader, c.data.command, c.data.tempTime, c.data.offsetRow,
                                  c.data.offsetCol, c.data.length] + c.data.chars[..c.data.length]
    ensures c.id == CMD_COMSET ==>
              var b := c.data.baud;
              Encode(c).value == [c.id, c.data.addr, b % 256, b / 256 % 256, b / 0x1_0000 % 256, b / 0x100_0000]
  {
    match c.data
    case Output(no, cc, tmr) => LeBytes2(tmr);
    case Led(reader, number, temp, perm) => LeBytes2(temp.timer);
    case ComSet(addr, baud) => LeBytes4(baud);
    case _ =>
  }

  /** The command as it travels: no payload for the bare and reserved-byte commands, no permanent LED timer, text beyond its length zeroed. */
  datatype WireCommand = WireCommand(id: byte, data: CmdData)

  function WireView(c: Command): WireCommand
    requires DataAgrees(c)
  {
    if c.id in BARE_CMDS || c.id in RESERVED_BYTE_CMDS then WireCommand(c.id, NoData)
    else match c.data
      case Led(reader, number, temp, perm) => WireCommand(c.id, Led(reader, number, temp, perm.(timer := 0)))
      case Text(reader, command, tempTime, row, col, length, chars) =>
        if length <= |chars| then
          WireCommand(c.id, Text(reader, command, tempTime, row, col, length,
                                 chars[..length] + Zeros(|chars| - length)))
        else WireCommand(c.id, c.data)
      case _ => WireCommand(c.id, c.data)
  }

  /**
   * How a peripheral reads a command payload: the inverse of the encoder,
   * used here only to state what the encoder's layouts preserve.
   */
  function ParseCommand(bs: seq<byte>): Option<WireCommand>
  {
    if |bs| == 0 then None
    else
      var id := bs[0];
      if id in BARE_CMDS then
        if |bs| == 1 then Some(WireCommand(id, NoData)) else None
      else if id in RESERVED_BYTE_CMDS then
        if |bs| == 2 && bs[1] == 0 then Some(WireCommand(id, NoData)) else None
      else if id == CMD_OUT then
        if |bs| == 5 then Some(WireCommand(id, Output(bs[1], bs[2], FromLe(bs[3..5])))) else None
      else if id == CMD_LED then
        if |bs| == 15 then
          Some(WireCommand(id, Led(bs[1], bs[2],
                                   LedParams(bs[3], bs[4], bs[5], bs[6], bs[7], FromLe(bs[8..10])),
                                   LedParams(bs[10], bs[11], bs[12], bs[13], bs[14], 0))))
        else None
      else if id == CMD_BUZ then
        if |bs| == 6 then Some(WireCommand(id, Buzzer(bs[1], bs[2], bs[3], bs[4], bs[5]))) else None
      else if id == CMD_TEXT then
        if |bs| >= 7 && bs[6] <= TEXT_CAPACITY && |bs| == 7 + bs[6] then
          Some(WireCommand(id, Text(bs[1], bs[2], bs[3], bs[4], bs[5], bs[6],
                                    bs[7..] + Zeros(TEXT_CAPACITY - bs[6]))))
        else None
      else if id == CMD_COMSET then
        if |bs| == 6 then Some(WireCommand(id, ComSet(bs[1], FromLe(bs[2..6])))) else None
      else None
  }

  /** Every field that is sent comes back out of the encoded payload. */
  lemma EncodeThenParse(c: Command)
    requires DataAgrees(c) && Accepted(c)
    ensures ParseCommand(Encode(c).value) == Some(WireView(c))
  {
    var bs := Encode(c).value;
    match c.data
    case Output(no, cc, tmr) =>
      if c.id == CMD_OUT {
        assert bs[3..5] == LeBytes(tmr, 2);
        FromLeOfLeBytes(tmr, 2);
      }
    case Led(reader, number, temp, perm) =>
      if c.id == CMD_LED {
        assert bs[8..10] == LeBytes(temp.timer, 2);
        FromLeOfLeBytes(temp.timer, 2);
      }
    case Text(reader, command, tempTime, row, col, length, chars) =>
      if c.id == CMD_TEXT {
        assert bs[7..] == chars[..length];
      }
    case ComSet(addr, baud) =>
      if c.id == CMD_COMSET {
        assert bs[2..6] == LeBytes(baud, 4);
        FromLeOfLeBytes(baud, 4);
      }
    case _ =>
  }

  /** Every payload a peripheral accepts is the encoding of some command. */
  lemma ParseThenEncode(bs: seq<byte>)
    requires ParseCommand(bs).Some?
    ensures var w := ParseCommand(bs).value;
            var c := Command(CMD_HEADER_SIZE + (if w.id in PAYLOAD_SIZE then PAYLOAD_SIZE[w.id] else 0), w.id, w.data);
            DataAgrees(c) && Encode(c) == Some(bs)
  {
    var w := ParseCommand(bs).value;
    var id := bs[0];
    if id == CMD_OUT {
      LeBytesOfFromLe(bs[3..5]);
      assert bs == [id, bs[1], bs[2]] + bs[3..5];
    } else if id == CMD_LED {
      LeBytesOfFromLe(bs[8..10]);
      assert bs == [id, bs[1], bs[2]] + ([bs[3], bs[4], bs[5], bs[6], bs[7]] + bs[8..10])
                   + [bs[10], bs[11], bs[12], bs[13], bs[14]];
    } else if id == CMD_TEXT {
      assert (bs[7..] + Zeros(TEXT_CAPACITY - bs[6]))[..bs[6]] == bs[7..];
      assert bs == [id, bs[1], bs[2], bs[3], bs[4], bs[5], bs[6]] + bs[7..];
    } else if id == CMD_COMSET {
      LeBytesOfFromLe(bs[2..6]);
      assert bs == [id, bs[1]] + bs[2..6];
    } else if id == CMD_BUZ {
      assert bs == [id, bs[1], bs[2], bs[3], bs[4], bs[5]];
    } else if id in BARE_CMDS {
      assert bs == [id];
    } else {
      assert bs == [id, 0];
    }
  }

  /**
   * `cp_build_command`: writes the payload into `buf` one byte at a time and
   * returns its length, or returns -1 having written nothing. Each
   * payload-bearing layout is written by its own helper below.
   */
  method BuildCommand(cmd: Command, buf: array<byte>) returns (ret: int)
    requires DataAgrees(cmd) && buf.Length >= MAX_COMMAND_BYTES
    modifies buf
    ensures Encode(cmd).None? ==> ret == -1 && buf[..] == old(buf[..])
    ensures Encode(cmd).Some? ==> ret == |Encode(cmd).value| && buf[..ret] == Encode(cmd).value
    ensures Encode(cmd).Some? ==> buf[ret..] == old(buf[ret..])
  {
    var len := 0;
    var id := cmd.id;
    ret := -1;
    if id in BARE_CMDS {
      buf[len] := id; len := len + 1;
      ret := 0;
    } else if id in RESERVED_BYTE_CMDS {
      buf[len] := id; len := len + 1;
      buf[len] := 0; len := len + 1;
      ret := 0;
    } else if id == CMD_OUT {
      if cmd.len == CMD_HEADER_SIZE + 4 {
        len := WriteOutput(buf, id, cmd.data);
        ret := 0;
      }
    } else if id == CMD_LED {
      if cmd.len == CMD_HEADER_SIZE + 16 {
        len := WriteLed(buf, id, cmd.data);
        ret := 0;
      }
    } else if id == CMD_BUZ {
      if cmd.len == CMD_HEADER_SIZE + 5 {
        len := WriteBuzzer(buf, id, cmd.data);
        ret := 0;
      }
    } else if id == CMD_TEXT {
      if cmd.len == CMD_HEADER_SIZE + 38 {
        len := WriteText(buf, id, cmd.data);
        ret := 0;
      }
    } else if id == CMD_COMSET {
      if cmd.len == CMD_HEADER_SIZE + 5 {
        len := WriteComSet(buf, id, cmd.data);
        ret := 0;
      }
    }
    // Obsolete and unknown codes fall through with ret still -1.

    if ret < 0 {
      return ret;
    }
    return len;
  }

  /** `buf[len++] = b`. */
  method Put(buf: array<byte>, len: int, b: byte) returns (next: int)
    requires 0 <= len < buf.Length
    modifies buf
    ensures next == len + 1
    ensures buf[..next] == old(buf[..len]) + [b]
    ensures forall i :: next <= i < buf.Length ==> buf[i] == old(buf[i])
  {
    buf[len] := b;
    next := len + 1;
    assert buf[..next] == buf[..len] + [b];
  }

  method WriteOutput(buf: array<byte>, id: byte, o: CmdData) returns (len: int)
    requires o.Output? && buf.Length >= 5
    modifies buf
    ensures len == |Layout(id, o)| && buf[..len] == Layout(id, o) && buf[len..] == old(buf[len..])
  {
    len := 0;
    len := Put(buf, len, id);
    len := Put(buf, len, o.outputNo);
    len := Put(buf, len, o.controlCode);
    len := Put(buf, len, o.tmrCount % 256);
    len := Put(buf, len, o.tmrCount / 256);
    LeBytes2(o.tmrCount);
  }

  method WriteLed(buf: array<byte>, id: byte, l: CmdData) returns (len: int)
    requires l.Led? && buf.Length >= 15
    modifies buf
    ensures len == |Layout(id, l)| && buf[..len] == Layout(id, l) && buf[len..] == old(buf[len..])
  {
    len := 0;
    len := Put(buf, len, id);
    len := Put(buf, len, l.reader);
    len := Put(buf, len, l.number);
    ghost var header := buf[..len];
    len := PutLedTemporary(buf, len, l.temporary);
    ghost var withTemporary := buf[..len];
    assert withTemporary == header + LedTemporaryBytes(l.temporary);
    len := PutLedPermanent(buf, len, l.permanent);
    assert buf[..len] == withTemporary + LedPermanentBytes(l.permanent);
  }

  /** The temporary LED settings, timer included. */
  method PutLedTemporary(buf: array<byte>, len: int, p: LedParams) returns (next: int)
    requires 0 <= len && len + 7 <= buf.Length
    modifies buf
    ensures next == len + 7
    ensures buf[..next] == old(buf[..len]) + LedTemporaryBytes(p)
    ensures forall i :: next <= i < buf.Length ==> buf[i] == old(buf[i])
  {
    next := Put(buf, len, p.controlCode);
    next := Put(buf, next, p.onCount);
    next := Put(buf, next, p.offCount);
    next := Put(buf, next, p.onColor);
    next := Put(buf, next, p.offColor);
    next := Put(buf, next, p.timer % 256);
    next := Put(buf, next, p.timer / 256);
    LeBytes2(p.timer);
  }

  /** The permanent LED settings: five bytes, no timer. */
  method PutLedPermanent(buf: array<byte>, len: int, p: LedParams) returns (next: int)
    requires 0 <= len && len + 5 <= buf.Length
    modifies buf
    ensures next == len + 5
    ensures buf[..next] == old(buf[..len]) + LedPermanentBytes(p)
    ensures forall i :: next <= i < buf.Length ==> buf[i] == old(buf[i])
  {
    next := Put(buf, len, p.controlCode);
    next := Put(buf, next, p.onCount);
    next := Put(buf, next, p.offCount);
    next := Put(buf, next, p.onColor);
    next := Put(buf, next, p.offColor);
  }

  method WriteBuzzer(buf: array<byte>, id: byte, b: CmdData) returns (len: int)
    requires b.Buzzer? && buf.Length >= 6
    modifies buf
    ensures len == |Layout(id, b)| && buf[..len] == Layout(id, b) && buf[len..] == old(buf[len..])
  {
    len := 0;
    len := Put(buf, len, id);
    len := Put(buf, len, b.reader);
    len := Put(buf, len, b.toneCode);
    len := Put(buf, len, b.onCount);
    len := Put(buf, len, b.offCount);
    len := Put(buf, len, b.repCount);
  }

  method WriteText(buf: array<byte>, id: byte, t: CmdData) returns (len: int)
    requires t.Text? && t.length <= |t.chars| && buf.Length >= 7 + t.length
    modifies buf
    ensures len == |Layout(id, t)| && buf[..len] == Layout(id, t) && buf[len..] == old(buf[len..])
  {
    len := 0;
    len := Put(buf, len, id);
    len := Put(buf, len, t.reader);
    len := Put(buf, len, t.command);
    len := Put(buf, len, t.tempTime);
    len := Put(buf, len, t.offsetRow);
    len := Put(buf, len, t.offsetCol);
    len := Put(buf, len, t.length);
    ghost var header := [id, t.reader, t.command, t.tempTime, t.offsetRow, t.offsetCol, t.length];
    for i := 0 to t.length
      invariant len == 7 + i
      invariant buf[..len] == header + t.chars[..i]
      invariant forall j :: len <= j < buf.Length ==> buf[j] == old(buf[j])
    {
      len := Put(buf, len, t.chars[i]);
    }
  }

  method WriteComSet(buf: array<byte>, id: byte, s: CmdData) returns (len: int)
    requires s.ComSet? && buf.Length >= 6
    modifies buf
    ensures len == |Layout(id, s)| && buf[..len] == Layout(id, s) && buf[len..] == old(buf[len..])
  {
    len := 0;
    len := Put(buf, len, id);
    len := Put(buf, len, s.addr);
    len := Put(buf, len, s.baud % 256);
    len := Put(buf, len, s.baud / 256 % 256);
    len := Put(buf, len, s.baud / 0x1_0000 % 256);
    len := Put(buf, len, s.baud / 0x100_0000);
    LeBytes4(s.baud);
  }
}
