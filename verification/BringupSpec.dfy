/** The opening state machine of src/ft9201.c as a function of events: the five-transfer handshake of this sensor,
    and the legacy bring-up (firmware upload, verification, reset, MCU poll) behind it. */
module BringupSpec {
  import opened Bytes
  import opened Wire

  // ---- states, numbered as in the source ----

  const INFO_READ: nat := 4
  const LEGACY_ENTRY: nat := 5
  const SPI_R_F4: nat := 19
  const SPI_R_F3: nat := 21
  const CHUNK_SIZE: nat := 35
  const UPLOAD: nat := 36
  const VERIFY_READ: nat := 41
  const CFG_FIRST: nat := 42
  const CFG_LAST: nat := 50
  const SENSOR_RESET: nat := 51
  const MCU_WAIT: nat := 57
  const MCU_POLL: nat := 58
  const READ_W: nat := 59
  const READ_H: nat := 60
  const NUM_STATES: nat := 65

  const CHUNK: nat := 64
  const MAX_RETRIES: nat := 200

  /** Waiting for the transfer of a state, waiting to enter a state after a delay, or over. */
  datatype Phase = Waiting(state: nat) | Sleeping(next: nat) | Finished | Failed

  /** `fw` is the embedded firmware; `offset` and `retries` are fw_offset and fw_retries, both u32. */
  datatype Init = Init(fw: seq<u8>, variant: u8, reg: u8, offset: u32, retries: u32, width: u8, height: u8,
                       phase: Phase, wire: seq<Usb>)

  /** How many firmware bytes the next chunk carries, computed in u32. */
  function ChunkLen(fw: seq<u8>, offset: nat): (n: nat)
    requires offset < |fw|
    ensures n <= CHUNK && offset + n <= |fw|
    ensures n == CHUNK || |fw| - offset >= 0x1_0000_0000 || n == |fw| - offset
  {
    var remaining := W32(|fw| - offset);
    if remaining < CHUNK then remaining else CHUNK
  }

  /** The zero-padded chunk that starts at offset. */
  function Chunk(fw: seq<u8>, offset: nat): (c: seq<u8>)
    requires offset < |fw|
    ensures |c| == CHUNK
  {
    var n := ChunkLen(fw, offset);
    fw[offset..offset + n] + seq(CHUNK - n, _ => 0)
  }

  predicate Delay(st: nat) { st == 31 || st == 37 || st == 52 || st == 54 || st == MCU_WAIT }

  /** States that move on at once for this sensor variant. */
  predicate Skips(variant: u8, st: nat) {
    || ((st == 46 || st == 47) && variant != 2 && variant != 4)
    || ((st == 49 || st == 50) && variant == 1)
    || (61 <= st <= 64 && variant != 2 && variant != 3)
  }

  /** The transfer a state submits; a delay submits none. */
  function Command(s: Init, st: nat): (u: Usb)
    requires st == UPLOAD ==> s.offset < |s.fw|
  {
    if st == 0 || st == 2 || st == 39 then ARM
    else if st == 1 then SELECT_CMD
    else if st == 3 then STATUS_CMD
    else if st == INFO_READ then BulkIn(32)
    else if st == 5 || st == 6 || st == 23 || st == 24 || st == 55 || st == 56 then Out(0x22, 0x70, 0x70)
    else if st == 7 then Out(0x64, 0x9001, 0)
    else if st == 8 then In(0x60, 0, 1)
    else if st == 9 then Out(0x64, 0x0603, 0xf9)
    else if st == 10 || st == 33 then Out(0x34, 2, 0)
    else if st == 11 then Out(0x35, 4, 0x85c0)
    else if st == 12 then BulkOut([0x11, 0xee, 0x02, 0x00])
    else if st == 13 then Out(0x03, 1, 0xa4)
    else if st == 14 then In(0x30, 0x85c0, 2)
    else if st == 15 || st == 25 then Out(0x57, 0, 0)
    else if st == 16 then Out(0x66, 0xdf, 0xc8)
    else if st == 17 then In(0x65, 0xc8, 1)
    else if st == 18 then Out(0x66, 0x1d, 0xf1)
    else if st == SPI_R_F4 then In(0x65, 0xf4, 1)
    else if st == 20 then Out(0x66, if s.reg % 2 == 0 then s.reg + 1 else s.reg, 0xf4)
    else if st == SPI_R_F3 then In(0x65, 0xf3, 1)
    else if st == 22 then Out(0x66, 0, 0xf4)
    else if st == 26 then Out(0x03, 0xff, 0xc8)
    else if st == 27 then Out(0x03, 0xff, 0xca)
    else if st == 28 then Out(0x03, 0xff, 0xcb)
    else if st == 29 then Out(0x03, 0xbf, 0xb9)
    else if st == 30 then Out(0x03, 0xff, 0xb9)
    else if st == 32 || st == 38 then RESET
    else if st == 34 then In(0x1a, 0, 2)
    else if st == CHUNK_SIZE then Out(0x35, 64, 0)
    else if st == UPLOAD then BulkOut(Chunk(s.fw, s.offset))
    else if st == 40 then Out(0x35, (|s.fw| + 2) % 0x1_0000, 0)
    else if st == VERIFY_READ then BulkIn(|s.fw| + 2)
    else if st == 42 then Out(0x3b, 0x01, 0x01)
    else if st == 43 then Out(0x3b, 0x0f, 0x41)
    else if st == 44 then Out(0x3b, 0xbb, 0x30)
    else if st == 45 then In(0x3a, 0x30, 1)
    else if st == 46 || st == 61 then Out(0x3b, 0x00, 0x22)
    else if st == 47 || st == 62 then Out(0x3b, 0x0e, 0x23)
    else if st == 48 then Out(0x3b, 0x01, 0x54)
    else if st == 49 || st == 63 then Out(0x3b, 0x01, 0x1f)
    else if st == 50 || st == 64 then Out(0x3b, 0x01, 0x1e)
    else if st == SENSOR_RESET || st == 53 then Out(0x40, 0, 0)
    else if st == MCU_POLL then In(0x3a, 0x20, 2)
    else if st == READ_W then In(0x3a, 0x14, 4)
    else In(0x3a, 0x15, 4)
  }

  /** Enter state st: pass over states that have nothing to do, then sleep or submit. */
  function Enter(s: Init, st: nat): Init
    decreases NUM_STATES - st
  {
    if st >= NUM_STATES then s.(phase := Finished)
    else if Skips(s.variant, st) || (st == UPLOAD && s.offset >= |s.fw|) then Enter(s, st + 1)
    else if Delay(st) then s.(phase := Sleeping(st + 1))
    else
      var s' := if st == CHUNK_SIZE then s.(offset := 0) else s;
      s'.(phase := Waiting(st), wire := s.wire + [Command(s', st)])
  }

  /** Byte k of a transfer buffer, which starts out zeroed. */
  function ByteAt(data: seq<u8>, k: nat): u8 { if k < |data| then data[k] else 0 }

  function OrDefault(b: u8, fallback: u8): u8 { if b != 0 then b else fallback }

  /** info_9338_cb. */
  function InfoReply(s: Init, data: seq<u8>): Init {
    if |data| < 25 then s.(phase := Failed)
    else s.(width := OrDefault(data[23], 64), height := OrDefault(data[24], 80), phase := Finished)
  }

  /** mcu_poll_cb. */
  function PollReply(s: Init, data: seq<u8>): Init {
    if ByteAt(data, 0) == 0xa5 && ByteAt(data, 1) == 0x5a then Enter(s, MCU_POLL + 1)
    else
      var s' := s.(retries := W32(s.retries + 1));
      if s'.retries > MAX_RETRIES then s'.(phase := Failed) else Enter(s', MCU_WAIT)
  }

  /** The callback of the transfer of state st. */
  function React(s: Init, st: nat, data: seq<u8>): Init {
    hide Enter, PollReply, InfoReply;
    if st == INFO_READ then InfoReply(s, data)
    else if st == SPI_R_F4 then Enter(s.(reg := ByteAt(data, 0)), st + 1)
    else if st == SPI_R_F3 then Enter(s.(variant := 1), st + 1)
    else if st == UPLOAD then s.(offset := W32(s.offset + CHUNK), phase := Sleeping(UPLOAD))
    else if st == VERIFY_READ then
      if |data| >= |s.fw| && data[..|s.fw|] == s.fw then Enter(s, SENSOR_RESET) else s.(phase := Failed)
    else if st == MCU_POLL then PollReply(s, data)
    else if st == READ_W then Enter(s.(width := OrDefault(ByteAt(data, 0), 64)), st + 1)
    else if st == READ_H then Enter(s.(height := OrDefault(ByteAt(data, 0), 80)), st + 1)
    else Enter(s, st + 1)
  }

  /** Optional reads, whose errors are swallowed. */
  predicate Optional(st: nat) { st == 8 || st == 14 || st == 17 || st == 34 || st == 45 }

  datatype Event = Tick | TransferFailed | Transferred(data: seq<u8>)

  /** An event that the machine is waiting for. */
  predicate Expected(s: Init, e: Event) {
    match s.phase
    case Waiting(_) => !e.Tick?
    case Sleeping(_) => e.Tick?
    case _ => false
  }

  function Step(s: Init, e: Event): Init {
    hide Enter, React;
    if !Expected(s, e) then s
    else
      match e
      case Tick => Enter(s, s.phase.next)
      case TransferFailed => if Optional(s.phase.state) then Enter(s, s.phase.state + 1) else s.(phase := Failed)
      case Transferred(data) => React(s, s.phase.state, data)
  }

  function RunFrom(s: Init, events: seq<Event>): Init
    decreases events
  {
    if events == [] then s else RunFrom(Step(s, events[0]), events[1..])
  }

  /** dev_open: counters cleared, first state entered. */
  function Opening(fw: seq<u8>, variant: u8, reg: u8, width: u8, height: u8): Init {
    Enter(Init(fw, variant, reg, 0, 0, width, height, Finished, []), 0)
  }

  /** The legacy bring-up from its own entry state, counters cleared as dev_open does. */
  function LegacyOpening(fw: seq<u8>, variant: u8, reg: u8, width: u8, height: u8): Init {
    Enter(Init(fw, variant, reg, 0, 0, width, height, Finished, []), LEGACY_ENTRY)
  }
}
