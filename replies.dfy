/**
 * The control panel's reply decoder (`cp_decode_response`): classifies a
 * peripheral's reply and applies it to the peripheral record, reporting key
 * presses and card reads to the application callbacks.
 */
module Replies {
  import opened Bytes

  // Reply codes of the OSDP standard.
  const REPLY_ACK: byte := 0x40
  const REPLY_NAK: byte := 0x41
  const REPLY_PDID: byte := 0x45
  const REPLY_PDCAP: byte := 0x46
  const REPLY_LSTATR: byte := 0x48
  const REPLY_ISTATR: byte := 0x49
  const REPLY_OSTATR: byte := 0x4A
  const REPLY_RSTATR: byte := 0x4B
  const REPLY_RAW: byte := 0x50
  const REPLY_FMT: byte := 0x51
  const REPLY_PRES: byte := 0x52
  const REPLY_KEYPPAD: byte := 0x53
  const REPLY_COM: byte := 0x54
  const REPLY_SCREP: byte := 0x55
  const REPLY_SPER: byte := 0x56
  const REPLY_BIOREADR: byte := 0x57
  const REPLY_BIOMATCHR: byte := 0x58
  const REPLY_CCRYPT: byte := 0x76
  const REPLY_RMAC_I: byte := 0x78
  const REPLY_BUSY: byte := 0x79
  const REPLY_MFGREP: byte := 0x90
  const REPLY_XRD: byte := 0xB1

  /** Replies whose payload is parsed as a key-press report. */
  const KEYPAD_REPLIES: set<byte> := {REPLY_CCRYPT, REPLY_RMAC_I, REPLY_KEYPPAD}
  /** Replies accepted and ignored as unsupported. */
  const UNSUPPORTED_REPLIES: set<byte> :=
    {REPLY_ISTATR, REPLY_OSTATR, REPLY_BIOREADR, REPLY_BIOMATCHR, REPLY_MFGREP, REPLY_XRD}
  /** Replies accepted and ignored as deprecated. */
  const DEPRECATED_REPLIES: set<byte> := {REPLY_SCREP, REPLY_PRES, REPLY_SPER}
  /** Every reply code the decoder recognises; any other code is an error. */
  const KNOWN_REPLIES: set<byte> :=
    {REPLY_ACK, REPLY_NAK, REPLY_PDID, REPLY_PDCAP, REPLY_LSTATR, REPLY_RSTATR, REPLY_COM,
     REPLY_RAW, REPLY_FMT, REPLY_BUSY} + KEYPAD_REPLIES + UNSUPPORTED_REPLIES + DEPRECATED_REPLIES

  /** Payload size of an identification reply. */
  const PDID_LEN: int := 12

  datatype PdId = PdId(vendorCode: nat, model: byte, version: byte, serialNumber: nat, firmwareVersion: nat)
  datatype Capability = Capability(complianceLevel: byte, numItems: byte)
  /** A card-read report carries either the raw format code of the reply or the ASCII format tag. */
  datatype CardFormat = FmtRaw(code: byte) | FmtAscii
  /**
   * One invocation of an application callback. A card read records the
   * callback's arguments: the format, the count the reply carries (bits for
   * a RAW reply, characters for a FMT reply) and the bytes the data pointer
   * gives access to.
   */
  datatype Event =
    | KeyPress(address: int, key: byte)
    | CardRead(address: int, format: CardFormat, length: nat, data: seq<byte>)

  /** The part of the peripheral record the decoder reads and writes. */
  datatype PdState = PdState(id: PdId, cap: map<byte, Capability>, tamper: bool, power: bool,
                             rTamper: bool, comsetInProg: bool, baudRate: nat, events: seq<Event>)

  /** The decoder's return code and the record it leaves. */
  datatype Decoded = Decoded(ret: int, state: PdState)

  /**
   * The bytes the decoder reads at fixed offsets are present: the decoder
   * itself checks only the identification and capabilities lengths.
   */
  predicate WellSized(buf: seq<byte>, keypadHandler: bool, cardHandler: bool)
  {
    && |buf| >= 1
    && (buf[0] == REPLY_NAK ==> |buf| >= 2)
    && (buf[0] == REPLY_LSTATR ==> |buf| >= 3)
    && (buf[0] == REPLY_RSTATR ==> |buf| >= 2)
    && (buf[0] == REPLY_COM ==> |buf| >= 6)
    && (buf[0] in KEYPAD_REPLIES ==> |buf| >= 3 && (keypadHandler ==> |buf| - 3 >= buf[2]))
    && (buf[0] == REPLY_RAW ==> |buf| >= 5)
    && (buf[0] == REPLY_FMT ==> |buf| >= 4 && (cardHandler ==> |buf| - 4 >= buf[3]))
  }

  /** An identification reply payload: vendor code (3 bytes LE), model, version, serial number (4 bytes LE), firmware version (3 bytes, most significant first). */
  function ParsePdId(p: seq<byte>): (id: PdId)
    requires |p| == PDID_LEN
    ensures FitsWire(id) && id.model == p[3] && id.version == p[4]
  {
    PdId(FromLe(p[0..3]), p[3], p[4], FromLe(p[5..9]), FromBe(p[9..12]))
  }

  /** The identification reply payload a peripheral sends. */
  function PdIdBytes(id: PdId): seq<byte>
  {
    LeBytes(id.vendorCode, 3) + [id.model, id.version] + LeBytes(id.serialNumber, 4) + BeBytes(id.firmwareVersion, 3)
  }

  predicate FitsWire(id: PdId)
  {
    id.vendorCode < Pow256(3) && id.serialNumber < Pow256(4) && id.firmwareVersion < Pow256(3)
  }

  lemma PdIdRoundTrip(id: PdId)
    requires FitsWire(id)
    ensures |PdIdBytes(id)| == PDID_LEN && ParsePdId(PdIdBytes(id)) == id
  {
    var p := PdIdBytes(id);
    assert p[0..3] == LeBytes(id.vendorCode, 3);
    assert p[5..9] == LeBytes(id.serialNumber, 4);
    assert p[9..12] == BeBytes(id.firmwareVersion, 3);
    FromLeOfLeBytes(id.vendorCode, 3);
    FromLeOfLeBytes(id.serialNumber, 4);
    FromBeOfBeBytes(id.firmwareVersion, 3);
  }

  lemma PdIdBytesOfParse(p: seq<byte>)
    requires |p| == PDID_LEN
    ensures FitsWire(ParsePdId(p)) && PdIdBytes(ParsePdId(p)) == p
  {
    LeBytesOfFromLe(p[0..3]);
    LeBytesOfFromLe(p[5..9]);
    BeBytesOfFromBe(p[9..12]);
    assert p == p[0..3] + [p[3], p[4]] + p[5..9] + p[9..12];
  }

  /** The capability table after the `[code, level, items]` triples of `p`, applied in order. */
  function ApplyCaps(m: map<byte, Capability>, p: seq<byte>): map<byte, Capability>
    requires |p| % 3 == 0
  {
    if |p| == 0 then m
    else
      var n := |p| - 3;
      ApplyCaps(m, p[..n])[p[n] := Capability(p[n + 1], p[n + 2])]
  }

  /** The capability codes the triples of `p` name. */
  function CapCodes(p: seq<byte>): set<byte>
  {
    set k | 0 <= k < |p| && k % 3 == 0 :: p[k]
  }

  /** The table afterwards has an entry for each code it had and each code a triple names, and no other. */
  lemma {:induction false} CapsDomain(m: map<byte, Capability>, p: seq<byte>)
    requires |p| % 3 == 0
    ensures ApplyCaps(m, p).Keys == m.Keys + CapCodes(p)
  {
    if |p| > 0 {
      var n := |p| - 3;
      CapsDomain(m, p[..n]);
      assert CapCodes(p) == CapCodes(p[..n]) + {p[n]} by {
        forall k | 0 <= k < n ensures p[..n][k] == p[k] { }
      }
    }
  }

  /** A code's entry comes from the last triple that names it. */
  lemma {:induction false} CapsLastWins(m: map<byte, Capability>, p: seq<byte>, j: int)
    requires |p| % 3 == 0 && 0 <= j < |p| && j % 3 == 0
    requires forall k :: j < k < |p| && k % 3 == 0 ==> p[k] != p[j]
    ensures p[j] in ApplyCaps(m, p) && ApplyCaps(m, p)[p[j]] == Capability(p[j + 1], p[j + 2])
  {
    var n := |p| - 3;
    if j != n {
      CapsLastWins(m, p[..n], j);
    }
  }

  /** A code that no triple names keeps its entry, or stays absent. */
  lemma {:induction false} CapsUntouched(m: map<byte, Capability>, p: seq<byte>, c: byte)
    requires |p| % 3 == 0
    requires forall k :: 0 <= k < |p| && k % 3 == 0 ==> p[k] != c
    ensures (c in ApplyCaps(m, p) <==> c in m) && (c in m ==> ApplyCaps(m, p)[c] == m[c])
  {
    if |p| > 0 {
      var n := |p| - 3;
      assert p[n] != c;
      CapsUntouched(m, p[..n], c);
    }
  }

  function KeyEvents(address: int, keys: seq<byte>): seq<Event>
  {
    seq(|keys|, i requires 0 <= i < |keys| => KeyPress(address, keys[i]))
  }

  /** `cp_decode_response` on a snapshot of the record: its return code and the record it leaves. */
  function Decode(s: PdState, address: int, buf: seq<byte>, keypadHandler: bool, cardHandler: bool): (d: Decoded)
    requires WellSized(buf, keypadHandler, cardHandler)
    ensures d.ret == 0 || d.ret == 2 || d.ret == -1
    ensures d.ret != 0 ==> d.state == s
    ensures |d.state.events| >= |s.events| && d.state.events[..|s.events|] == s.events
    ensures d.state.events != s.events ==> buf[0] in KEYPAD_REPLIES + {REPLY_RAW, REPLY_FMT}
  {
    var replyId := buf[0];
    var len := |buf| - 1;
    if replyId == REPLY_ACK || replyId == REPLY_NAK then Decoded(0, s)
    else if replyId == REPLY_PDID then
      if len != PDID_LEN then Decoded(-1, s) else Decoded(0, s.(id := ParsePdId(buf[1..])))
    else if replyId == REPLY_PDCAP then
      if len % 3 != 0 then Decoded(-1, s) else Decoded(0, s.(cap := ApplyCaps(s.cap, buf[1..])))
    else if replyId == REPLY_LSTATR then Decoded(0, s.(tamper := buf[1] != 0, power := buf[2] != 0))
    else if replyId == REPLY_RSTATR then Decoded(0, s.(rTamper := buf[1] != 0))
    else if replyId == REPLY_COM then Decoded(0, s.(baudRate := FromLe(buf[2..6]), comsetInProg := true))
    else if replyId in KEYPAD_REPLIES then
      if keypadHandler then Decoded(0, s.(events := s.events + KeyEvents(address, buf[3..3 + buf[2] as int])))
      else Decoded(0, s)
    else if replyId == REPLY_RAW then
      if cardHandler then
        Decoded(0, s.(events := s.events + [CardRead(address, FmtRaw(buf[2]), FromLe(buf[3..5]), buf[5..])]))
      else Decoded(0, s)
    else if replyId == REPLY_FMT then
      if cardHandler then Decoded(0, s.(events := s.events + [CardRead(address, FmtAscii, buf[3], buf[4..4 + buf[3] as int])]))
      else Decoded(0, s)
    else if replyId == REPLY_BUSY then Decoded(2, s)
    else if replyId in UNSUPPORTED_REPLIES || replyId in DEPRECATED_REPLIES then Decoded(0, s)
    else Decoded(-1, s)
  }

  /**
   * Outcome classification: busy asks for a retry; an unknown code or a
   * wrong-length identification or capabilities reply is an error; every
   * other reply is accepted. A retry or an error changes nothing, and so do
   * acknowledgements, negative acknowledgements and the unsupported and
   * deprecated replies.
   */
  lemma DecodeOutcome(s: PdState, address: int, buf: seq<byte>, keypadHandler: bool, cardHandler: bool)
    requires WellSized(buf, keypadHandler, cardHandler)
    ensures var d := Decode(s, address, buf, keypadHandler, cardHandler);
            && (d.ret == 0 || d.ret == -1 || d.ret == 2)
            && (d.ret == 2 <==> buf[0] == REPLY_BUSY)
            && (d.ret == -1 <==> || buf[0] !in KNOWN_REPLIES
                                 || (buf[0] == REPLY_PDID && |buf| - 1 != PDID_LEN)
                                 || (buf[0] == REPLY_PDCAP && (|buf| - 1) % 3 != 0))
            && (d.ret != 0 ==> d.state == s)
            && (buf[0] in {REPLY_ACK, REPLY_NAK} + UNSUPPORTED_REPLIES + DEPRECATED_REPLIES ==> d.state == s)
  {
    var id := buf[0];
    var d := Decode(s, address, buf, keypadHandler, cardHandler);
    if id == REPLY_BUSY || id !in KNOWN_REPLIES {
    } else if id == REPLY_PDID || id == REPLY_PDCAP {
    } else if id in UNSUPPORTED_REPLIES || id in DEPRECATED_REPLIES {
      assert id !in KEYPAD_REPLIES;
      assert d == Decoded(0, s);
    } else {
      assert d.ret == 0;
    }
  }

  /** An identification reply carrying `id` installs exactly `id` and changes nothing else. */
  lemma PdIdReply(s: PdState, address: int, id: PdId, keypadHandler: bool, cardHandler: bool)
    requires FitsWire(id)
    ensures var buf := [REPLY_PDID] + PdIdBytes(id);
            WellSized(buf, keypadHandler, cardHandler)
            && Decode(s, address, buf, keypadHandler, cardHandler) == Decoded(0, s.(id := id))
  {
    PdIdRoundTrip(id);
    var buf := [REPLY_PDID] + PdIdBytes(id);
    assert buf[1..] == PdIdBytes(id);
  }

  /** A capabilities reply sets each code it names from the last triple naming it, and changes no other field. */
  lemma CapsReplyLastWins(s: PdState, address: int, buf: seq<byte>, keypadHandler: bool, cardHandler: bool, j: int)
    requires |buf| >= 1 && buf[0] == REPLY_PDCAP && (|buf| - 1) % 3 == 0
    requires 1 <= j < |buf| && (j - 1) % 3 == 0
    requires forall k :: j < k < |buf| && (k - 1) % 3 == 0 ==> buf[k] != buf[j]
    ensures WellSized(buf, keypadHandler, cardHandler)
    ensures Decode(s, address, buf, keypadHandler, cardHandler).ret == 0
    ensures Decode(s, address, buf, keypadHandler, cardHandler).state
            == s.(cap := Decode(s, address, buf, keypadHandler, cardHandler).state.cap)
    ensures buf[j] in Decode(s, address, buf, keypadHandler, cardHandler).state.cap
    ensures Decode(s, address, buf, keypadHandler, cardHandler).state.cap[buf[j]]
            == Capability(buf[j + 1], buf[j + 2])
  {
    var p := buf[1..];
    forall k | j - 1 < k < |p| && k % 3 == 0 ensures p[k] != p[j - 1] {
      assert p[k] == buf[k + 1];
    }
    CapsLastWins(s.cap, p, j - 1);
  }

  /** A capabilities reply leaves the entry of a code it does not name as it was. */
  lemma CapsReplyUntouched(s: PdState, address: int, buf: seq<byte>, keypadHandler: bool, cardHandler: bool, c: byte)
    requires |buf| >= 1 && buf[0] == REPLY_PDCAP && (|buf| - 1) % 3 == 0
    requires forall k :: 1 <= k < |buf| && (k - 1) % 3 == 0 ==> buf[k] != c
    ensures WellSized(buf, keypadHandler, cardHandler)
    ensures c in Decode(s, address, buf, keypadHandler, cardHandler).state.cap <==> c in s.cap
    ensures c in s.cap ==> Decode(s, address, buf, keypadHandler, cardHandler).state.cap[c] == s.cap[c]
  {
    var p := buf[1..];
    forall k | 0 <= k < |p| && k % 3 == 0 ensures p[k] != c {
      assert p[k] == buf[k + 1];
    }
    CapsUntouched(s.cap, p, c);
  }

  /** A communication-set reply stores the little-endian baud rate it echoes and marks the change in progress. */
  lemma ComReply(s: PdState, address: int, addr: byte, baud: nat, keypadHandler: bool, cardHandler: bool)
    requires baud < Pow256(4)
    ensures var buf := [REPLY_COM, addr] + LeBytes(baud, 4);
            WellSized(buf, keypadHandler, cardHandler)
            && Decode(s, address, buf, keypadHandler, cardHandler) == Decoded(0, s.(baudRate := baud, comsetInProg := true))
  {
    var buf := [REPLY_COM, addr] + LeBytes(baud, 4);
    assert buf[2..6] == LeBytes(baud, 4);
    FromLeOfLeBytes(baud, 4);
  }

  /** Local and remote status replies turn each flag on exactly when its status byte is non-zero. */
  lemma StatusReplies(s: PdState, address: int, buf: seq<byte>, keypadHandler: bool, cardHandler: bool)
    requires WellSized(buf, keypadHandler, cardHandler)
    ensures buf[0] == REPLY_LSTATR ==>
              var d := Decode(s, address, buf, keypadHandler, cardHandler);
              d.ret == 0 && (d.state.tamper <==> buf[1] != 0) && (d.state.power <==> buf[2] != 0)
              && d.state == s.(tamper := d.state.tamper, power := d.state.power)
    ensures buf[0] == REPLY_RSTATR ==>
              var d := Decode(s, address, buf, keypadHandler, cardHandler);
              d.ret == 0 && (d.state.rTamper <==> buf[1] != 0) && d.state == s.(rTamper := d.state.rTamper)
  {
  }

  /**
   * A key-press reply, and the CCRYPT and RMAC_I replies parsed the same
   * way, report the keys the count byte covers, in order, to a registered
   * handler; bytes after them are ignored, and nothing else changes.
   */
  lemma KeypadReply(s: PdState, address: int, code: byte, hdr: byte, keys: seq<byte>, rest: seq<byte>,
                    keypadHandler: bool, cardHandler: bool)
    requires code in KEYPAD_REPLIES && |keys| < 256
    ensures var buf := [code, hdr, |keys|] + keys + rest;
            var d := Decode(s, address, buf, keypadHandler, cardHandler);
            WellSized(buf, keypadHandler, cardHandler) && d.ret == 0
            && d.state == s.(events := d.state.events)
            && d.state.events == (if keypadHandler then s.events + KeyEvents(address, keys) else s.events)
  {
    var buf: seq<byte> := [code, hdr, |keys|] + keys + rest;
    assert buf[3..3 + buf[2] as int] == keys;
  }

  /** A RAW card-read reply: header byte, format code, the little-endian bit count, then the card data. */
  function RawReply(h1: byte, fmt: byte, bits: nat, data: seq<byte>): (buf: seq<byte>)
    requires bits < Pow256(2)
    ensures |buf| == 5 + |data| && buf[0] == REPLY_RAW && buf[2] == fmt
    ensures FromLe(buf[3..5]) == bits && buf[5..] == data
  {
    FromLeOfLeBytes(bits, 2);
    var buf := [REPLY_RAW, h1, fmt] + LeBytes(bits, 2) + data;
    assert buf[3..5] == LeBytes(bits, 2);
    assert buf[5..] == data;
    buf
  }

  /**
   * A RAW card-read reply hands the card handler its format code, its 16-bit
   * bit count, whatever it is, and the data that follows; a FMT reply hands
   * it the characters its count byte covers, tagged as ASCII, and ignores
   * the bytes after them. With a card handler each appends exactly that one
   * report, without one nothing changes; both return 0.
   */
  lemma CardReadReplies(s: PdState, address: int, h1: byte, h2: byte, bits: nat, data: seq<byte>, rest: seq<byte>,
                        keypadHandler: bool, cardHandler: bool)
    requires bits < Pow256(2)
    ensures var buf := RawReply(h1, h2, bits, data);
            var d := Decode(s, address, buf, keypadHandler, cardHandler);
            WellSized(buf, keypadHandler, cardHandler) && d.ret == 0
            && d.state == s.(events := if cardHandler then s.events + [CardRead(address, FmtRaw(h2), bits, data)] else s.events)
    ensures |data| < 256 ==>
            var buf := [REPLY_FMT, h1, h2, |data|] + data + rest;
            var d := Decode(s, address, buf, keypadHandler, cardHandler);
            WellSized(buf, keypadHandler, cardHandler) && d.ret == 0
            && d.state == s.(events := if cardHandler then s.events + [CardRead(address, FmtAscii, |data|, data)] else s.events)
  {
    if |data| < 256 {
      var fmt := [REPLY_FMT, h1, h2, |data|] + data + rest;
      assert fmt[4..4 + |data|] == data;
    }
  }

  /** A standard 26-bit Wiegand read, four data bytes under a count of 26, is accepted and reported as sent. */
  lemma WiegandRead(s: PdState, address: int)
    ensures var buf := [REPLY_RAW, 0, 1, 26, 0, 0xAA, 0xBB, 0xCC, 0xC0];
            WellSized(buf, false, true)
            && Decode(s, address, buf, false, true)
               == Decoded(0, s.(events := s.events + [CardRead(address, FmtRaw(1), 26, [0xAA, 0xBB, 0xCC, 0xC0])]))
  {
    var buf: seq<byte> := [REPLY_RAW, 0, 1, 26, 0, 0xAA, 0xBB, 0xCC, 0xC0];
    assert buf[3..5] == [26, 0];
    assert FromLe(buf[3..5]) == 26;
  }

  /** The peripheral record that the decoder updates in place. */
  class Peripheral {
    const address: int
    var id: PdId
    var cap: map<byte, Capability>
    var tamper: bool
    var power: bool
    var rTamper: bool
    var comsetInProg: bool
    var baudRate: nat
    /** Callback invocations so far, oldest first. */
    var events: seq<Event>

    function State(): PdState
      reads this
    {
      PdState(id, cap, tamper, power, rTamper, comsetInProg, baudRate, events)
    }

    constructor (address: int)
      ensures this.address == address
      ensures State() == PdState(PdId(0, 0, 0, 0, 0), map[], false, false, false, false, 0, [])
    {
      this.address := address;
      id := PdId(0, 0, 0, 0, 0);
      cap := map[];
      tamper, power, rTamper, comsetInProg := false, false, false, false;
      baudRate := 0;
      events := [];
    }

    /**
     * `cp_decode_response`: returns 0 (accepted), 2 (peripheral busy, retry)
     * or -1 (malformed or unexpected reply).
     */
    method DecodeResponse(buf: seq<byte>, keypadHandler: bool, cardHandler: bool) returns (ret: int)
      requires WellSized(buf, keypadHandler, cardHandler)
      modifies this
      ensures Decoded(ret, State()) == Decode(old(State()), address, buf, keypadHandler, cardHandler)
    {
      var pos := 0;
      var replyId := buf[pos];
      pos := pos + 1;
      var len := |buf| - 1;  // payload bytes after the reply code
      ret := -1;

      if replyId == REPLY_ACK {
        ret := 0;
      } else if replyId == REPLY_NAK {
        // A non-zero reason code in buf[pos] is only logged.
        ret := 0;
      } else if replyId == REPLY_PDID {
        if len == PDID_LEN {
          assert buf[pos..pos + PDID_LEN] == buf[1..];
          id := ParsePdId(buf[pos..pos + PDID_LEN]);
          ret := 0;
        }
      } else if replyId == REPLY_PDCAP {
        if len % 3 == 0 {
          StoreCapabilities(buf);
          ret := 0;
        }
      } else if replyId == REPLY_LSTATR {
        tamper := buf[pos] != 0;
        pos := pos + 1;
        power := buf[pos] != 0;
        ret := 0;
      } else if replyId == REPLY_RSTATR {
        rTamper := buf[pos] != 0;
        ret := 0;
      } else if replyId == REPLY_COM {
        pos := pos + 1;  // the address the peripheral now answers to is only logged
        var temp32 := FromLe(buf[pos..pos + 4]);
        baudRate := temp32;
        comsetInProg := true;
        ret := 0;
      } else if replyId in KEYPAD_REPLIES || replyId == REPLY_RAW || replyId == REPLY_FMT {
        ret := DecodeEventReply(buf, keypadHandler, cardHandler);
      } else if replyId == REPLY_BUSY {
        ret := 2;
      } else if replyId in UNSUPPORTED_REPLIES || replyId in DEPRECATED_REPLIES {
        ret := 0;
      }
    }

    /** The keypad and card-read replies: each reports its events when the matching handler is installed. */
    method DecodeEventReply(buf: seq<byte>, keypadHandler: bool, cardHandler: bool) returns (ret: int)
      requires WellSized(buf, keypadHandler, cardHandler)
      requires buf[0] in KEYPAD_REPLIES || buf[0] == REPLY_RAW || buf[0] == REPLY_FMT
      modifies this
      ensures Decoded(ret, State()) == Decode(old(State()), address, buf, keypadHandler, cardHandler)
    {
      var pos := 1;
      var replyId := buf[0];
      if replyId in KEYPAD_REPLIES {
        pos := pos + 1;  // skip one byte
        var klen := buf[pos];
        pos := pos + 1;
        if keypadHandler {
          ReportKeys(buf[pos..pos + klen]);
        }
        ret := 0;
      } else if replyId == REPLY_RAW {
        pos := pos + 1;  // skip one byte
        var fmt := buf[pos];
        pos := pos + 1;
        var bits := FromLe(buf[pos..pos + 2]);
        pos := pos + 2;
        if cardHandler {
          events := events + [CardRead(address, FmtRaw(fmt), bits, buf[pos..])];
        }
        ret := 0;
      } else {
        pos := pos + 2;  // skip the two header bytes
        var keyLen := buf[pos];
        pos := pos + 1;
        if cardHandler {
          events := events + [CardRead(address, FmtAscii, keyLen, buf[pos..pos + keyLen])];
        }
        ret := 0;
      }
    }

    /** The capability-table loop of the capabilities reply: one table entry per triple, in order. */
    method StoreCapabilities(buf: seq<byte>)
      requires |buf| >= 1 && (|buf| - 1) % 3 == 0
      modifies this
      ensures State() == old(State()).(cap := ApplyCaps(old(cap), buf[1..]))
    {
      var pos := 1;
      var len := |buf| - 1;
      while pos < len
        invariant 1 <= pos <= len + 1 && (pos - 1) % 3 == 0
        invariant cap == ApplyCaps(old(cap), buf[1..pos])
        invariant State() == old(State()).(cap := cap)
      {
        var code := buf[pos];
        assert buf[1..pos + 3][..pos - 1] == buf[1..pos];
        cap := cap[code := Capability(buf[pos + 1], buf[pos + 2])];
        pos := pos + 3;
      }
      assert buf[1..pos] == buf[1..];
    }

    /** The keypad-handler loop: one key-press report per key, in order. */
    method ReportKeys(keys: seq<byte>)
      modifies this
      ensures State() == old(State()).(events := old(events) + KeyEvents(address, keys))
    {
      for i := 0 to |keys|
        invariant events == old(events) + KeyEvents(address, keys[..i])
        invariant State() == old(State()).(events := events)
      {
        assert KeyEvents(address, keys[..i + 1]) == KeyEvents(address, keys[..i]) + [KeyPress(address, keys[i])];
        events := events + [KeyPress(address, keys[i])];
      }
      assert keys[..|keys|] == keys;
    }
  }
}
