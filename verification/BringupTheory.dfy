/** What every run of the opening state machine keeps, how long it can last, and what an upload sends. */
module BringupTheory {
  import opened Bytes
  import opened Wire
  import opened BringupSpec

  // ---- the handshake of this sensor ----

  const HANDSHAKE: seq<Usb> :=
    [Out(0x34, 3, 0), Out(0x6f, 0, 0xff00), Out(0x34, 3, 0), Out(0x6f, 0x20, 0x9180), BulkIn(32)]

  /** The handshake never leaves its five states; it ends at the sensor's reply. */
  predicate Handshaking(s: Init) {
    match s.phase
    case Waiting(st) => st <= INFO_READ && s.wire == HANDSHAKE[..st + 1]
    case Sleeping(_) => false
    case Finished => s.wire == HANDSHAKE && s.width != 0 && s.height != 0
    case Failed => exists k :: 0 < k <= 5 && s.wire == HANDSHAKE[..k]
  }

  lemma HandshakeEnter(s: Init, st: nat)
    requires st <= INFO_READ && s.wire == HANDSHAKE[..st]
    ensures Handshaking(Enter(s, st))
  {
  }

  lemma HandshakeStep(s: Init, e: Event)
    requires Handshaking(s)
    ensures Handshaking(Step(s, e))
  {
    hide Enter;
    if s.phase.Waiting? && Expected(s, e) {
      if e.Transferred? && s.phase.state < INFO_READ { HandshakeEnter(s, s.phase.state + 1); }
    }
  }

  lemma {:induction false} HandshakeRun(s: Init, events: seq<Event>)
    requires Handshaking(s)
    ensures Handshaking(RunFrom(s, events))
    decreases events
  {
    hide Step, Handshaking;
    if events != [] {
      HandshakeStep(s, events[0]);
      HandshakeRun(Step(s, events[0]), events[1..]);
    }
  }

  /** For every sequence of events, opening the device stays in the handshake: no legacy state is entered and nothing
      but (a prefix of) the five handshake transfers is sent. */
  lemma OpeningIsHandshake(fw: seq<u8>, variant: u8, reg: u8, width: u8, height: u8, events: seq<Event>)
    ensures var s := RunFrom(Opening(fw, variant, reg, width, height), events);
            Handshaking(s) && (s.phase.Waiting? ==> s.phase.state < LEGACY_ENTRY) && s.wire <= HANDSHAKE
  {
    HandshakeEnter(Init(fw, variant, reg, 0, 0, width, height, Finished, []), 0);
    HandshakeRun(Opening(fw, variant, reg, width, height), events);
  }

  /** When the five transfers go through, the device opens exactly when the last reply has 25 bytes, and takes its
      geometry from bytes 23 and 24, each with its default for zero. */
  lemma HandshakeOutcome(fw: seq<u8>, variant: u8, reg: u8, width: u8, height: u8,
                         r0: seq<u8>, r1: seq<u8>, r2: seq<u8>, r3: seq<u8>, info: seq<u8>)
    ensures var acks := [Transferred(r0), Transferred(r1), Transferred(r2), Transferred(r3)];
            var s := RunFrom(Opening(fw, variant, reg, width, height), acks + [Transferred(info)]);
            && (s.phase.Finished? <==> |info| >= 25)
            && (s.phase.Finished? ==> s.width == (if info[23] == 0 then 64 else info[23])
                                      && s.height == (if info[24] == 0 then 80 else info[24]))
  {
    var e0, e1, e2, e3, e4 := Transferred(r0), Transferred(r1), Transferred(r2), Transferred(r3), Transferred(info);
    assert [e0, e1, e2, e3] + [e4] == [e0, e1, e2, e3, e4];
    var s0 := Opening(fw, variant, reg, width, height);
    FiveSteps(s0, e0, e1, e2, e3, e4);
  }

  /** Any transfer of the handshake that fails ends it: no further transfer is sent, whatever happens then. */
  lemma HandshakeFails(fw: seq<u8>, variant: u8, reg: u8, width: u8, height: u8, events: seq<Event>, rest: seq<Event>)
    ensures var s := RunFrom(Opening(fw, variant, reg, width, height), events);
            s.phase.Waiting? ==> RunFrom(s, [TransferFailed] + rest) == s.(phase := Failed)
  {
    hide RunFrom, Step, Opening;
    OpeningIsHandshake(fw, variant, reg, width, height, events);
    var s := RunFrom(Opening(fw, variant, reg, width, height), events);
    if s.phase.Waiting? {
      RunCons(s, TransferFailed, rest);
      FailureEnds(s);
      FailedStays(s.(phase := Failed), rest);
    }
  }

  /** A failed transfer ends the opening, except for five reads of the legacy bring-up, whose errors are swallowed. */
  lemma FailureEnds(s: Init)
    requires s.phase.Waiting?
    ensures var st := s.phase.state;
            Step(s, TransferFailed)
            == if st == 8 || st == 14 || st == 17 || st == 34 || st == 45 then Enter(s, st + 1) else s.(phase := Failed)
  {
    hide Enter;
  }

  lemma {:induction false} FailedStays(s: Init, events: seq<Event>)
    requires s.phase == Failed
    ensures RunFrom(s, events) == s
    decreases events
  {
    if events != [] { FailedStays(s, events[1..]); }
  }

  /** The MCU is ready exactly when a poll brings 0xa5, 0x5a; the 201st poll that does not ends the bring-up. */
  lemma PollDecides(s: Init, data: seq<u8>)
    requires s.phase == Waiting(58) && s.retries < 0xffff_ffff
    ensures var p := Step(s, Transferred(data)).phase;
            if |data| >= 2 && data[0] == 0xa5 && data[1] == 0x5a then p == Waiting(59)
            else if s.retries >= 200 then p == Failed else p == Sleeping(58)
  {
  }

  /** Firmware is verified exactly when what is read back begins with all of it. */
  lemma VerifyDecides(s: Init, data: seq<u8>)
    requires s.phase == Waiting(41)
    ensures Step(s, Transferred(data)).phase == if s.fw <= data then Waiting(51) else Failed
  {
    hide Chunk, ChunkLen;
  }

  lemma RunCons(s: Init, e: Event, rest: seq<Event>)
    ensures RunFrom(s, [e] + rest) == RunFrom(Step(s, e), rest)
  {
    hide Step;
    assert ([e] + rest)[1..] == rest;
  }

  lemma FiveSteps(s: Init, e0: Event, e1: Event, e2: Event, e3: Event, e4: Event)
    ensures RunFrom(s, [e0, e1, e2, e3, e4]) == Step(Step(Step(Step(Step(s, e0), e1), e2), e3), e4)
  {
    hide Step;
    var s1 := Step(s, e0);
    var s2 := Step(s1, e1);
    var s3 := Step(s2, e2);
    var s4 := Step(s3, e3);
    RunCons(s, e0, [e1, e2, e3, e4]);
    RunCons(s1, e1, [e2, e3, e4]);
    RunCons(s2, e2, [e3, e4]);
    RunCons(s3, e3, [e4]);
    RunCons(s4, e4, []);
    hide RunFrom;
    assert [e0] + [e1, e2, e3, e4] == [e0, e1, e2, e3, e4] && [e1] + [e2, e3, e4] == [e1, e2, e3, e4];
    assert [e2] + [e3, e4] == [e2, e3, e4] && [e3] + [e4] == [e3, e4] && [e4] + [] == [e4];
    assert RunFrom(Step(s4, e4), []) == Step(s4, e4) by { RunNone(Step(s4, e4)); }
  }

  lemma RunNone(s: Init)
    ensures RunFrom(s, []) == s
  {
  }

  /** What opening sends is disciplined, whatever the frame size. */
  lemma HandshakeDisciplined(n: nat)
    ensures WireOk(n, HANDSHAKE)
  {
    var w := HANDSHAKE;
    forall i | 0 <= i < |w|
      ensures ArmedAt(w, i) && AnnouncedAt(w, i) && NoUpload(w[i])
      ensures if FrameReadAt(w, i) then w[i].len == n else SizedAt(w, i)
    {
    }
  }

  // ---- the legacy bring-up ----

  /** The largest firmware whose upload ends: the u32 offset runs over multiples of 64. */
  const MAX_FW: nat := 0x1_0000_0000 - CHUNK

  function NumChunks(fw: seq<u8>): (k: nat)
    ensures (k - 1) * CHUNK < |fw| <= k * CHUNK
  {
    (|fw| + CHUNK - 1) / CHUNK
  }

  /** The first k chunks of the firmware. */
  function Pieces(fw: seq<u8>, k: nat): (p: seq<seq<u8>>)
    requires k <= NumChunks(fw)
    ensures |p| == k
  {
    seq(k, i requires 0 <= i < k => Chunk(fw, i * CHUNK))
  }

  lemma PiecesNext(fw: seq<u8>, k: nat)
    requires k < NumChunks(fw)
    ensures Pieces(fw, k + 1) == Pieces(fw, k) + [Chunk(fw, k * CHUNK)]
  {
  }

  /** Full-size bulk writes, in order; the four-byte payload of the preamble is not one. */
  function Sent(w: seq<Usb>): seq<seq<u8>> {
    if w == [] then []
    else
      var rest, u := Sent(w[..|w| - 1]), w[|w| - 1];
      if u.BulkOut? && |u.data| == CHUNK then rest + [u.data] else rest
  }

  const POLL: Usb := In(0x3a, 0x20, 2)

  function Polls(w: seq<Usb>): nat {
    if w == [] then 0 else Polls(w[..|w| - 1]) + if w[|w| - 1] == POLL then 1 else 0
  }

  /** No AFE register is ever written: the states that would are dead or skipped. */
  predicate NoAfeWrite(w: seq<Usb>) { forall i :: 0 <= i < |w| ==> !(w[i].Out? && w[i].req == 0x3b) }

  lemma Submitted(w: seq<Usb>, u: Usb)
    ensures Sent(w + [u]) == if u.BulkOut? && |u.data| == CHUNK then Sent(w) + [u.data] else Sent(w)
    ensures Polls(w + [u]) == Polls(w) + if u == POLL then 1 else 0
    ensures NoAfeWrite(w + [u]) <==> NoAfeWrite(w) && !(u.Out? && u.req == 0x3b)
  {
    var w' := w + [u];
    assert w'[..|w|] == w && w'[|w|] == u;
    if NoAfeWrite(w') {
      forall i | 0 <= i < |w| ensures !(w[i].Out? && w[i].req == 0x3b) { assert w'[i] == w[i]; }
    }
  }

  /** The first k chunks have been sent, of firmware whose upload can end. */
  predicate ChunksSent(s: Init, k: nat) {
    |s.fw| <= MAX_FW ==> k <= NumChunks(s.fw) && Sent(s.wire) == Pieces(s.fw, k)
  }

  /** Chunks sent by the time state st is entered; larger firmware never gets past the upload. */
  predicate UploadAt(s: Init, st: nat) {
    && (st < UPLOAD ==> Sent(s.wire) == [])
    && (st == UPLOAD ==> s.offset % CHUNK == 0 && ChunksSent(s, s.offset / CHUNK))
    && (st > UPLOAD ==> |s.fw| <= MAX_FW && ChunksSent(s, NumChunks(s.fw)))
  }

  predicate PollsAt(s: Init, st: nat) {
    && s.retries <= MAX_RETRIES
    && (if st <= MCU_POLL then Polls(s.wire) == s.retries else Polls(s.wire) <= MAX_RETRIES + 1)
  }

  predicate Live(st: nat) { LEGACY_ENTRY <= st <= NUM_STATES && !(CFG_FIRST <= st <= CFG_LAST) }

  /** State st may be entered now. */
  predicate MayEnter(s: Init, st: nat) {
    && Live(st) && (st > SPI_R_F3 ==> s.variant == 1)
    && UploadAt(s, st) && PollsAt(s, st) && NoAfeWrite(s.wire)
  }

  /** The transfer of state st is on its way. */
  predicate Pending(s: Init, st: nat) {
    && Live(st) && st < NUM_STATES && !Delay(st) && (st > SPI_R_F3 ==> s.variant == 1) && NoAfeWrite(s.wire)
    && s.retries <= MAX_RETRIES
    && (if st == MCU_POLL then Polls(s.wire) == s.retries + 1 else PollsAt(s, st))
    && (if st == UPLOAD then
          s.offset % CHUNK == 0 && s.offset < |s.fw| && ChunksSent(s, s.offset / CHUNK + 1)
        else UploadAt(s, st))
    && (st == CHUNK_SIZE ==> s.offset == 0)
  }

  predicate Inv(s: Init) {
    match s.phase
    case Waiting(st) => Pending(s, st)
    case Sleeping(next) => MayEnter(s, next) && next < NUM_STATES
    case Finished => MayEnter(s, NUM_STATES)
    case Failed => Polls(s.wire) <= MAX_RETRIES + 1 && NoAfeWrite(s.wire)
  }

  lemma EnterUpload(s: Init)
    requires MayEnter(s, UPLOAD) && s.offset < |s.fw|
    ensures Pending(s.(phase := Waiting(UPLOAD), wire := s.wire + [BulkOut(Chunk(s.fw, s.offset))]), UPLOAD)
  {
    hide Sent, Polls, NoAfeWrite, Chunk, Pieces, NumChunks;
    Submitted(s.wire, BulkOut(Chunk(s.fw, s.offset)));
    var k := s.offset / CHUNK;
    assert s.offset == k * CHUNK;
    NotAllSent(s.fw, k);
    if |s.fw| <= MAX_FW { PiecesNext(s.fw, k); }
  }

  lemma NotAllSent(fw: seq<u8>, k: nat)
    ensures k * CHUNK < |fw| <==> k < NumChunks(fw)
  {
  }

  /** A state other than the upload submits its transfer. */
  lemma EnterOther(s: Init, st: nat)
    requires MayEnter(s, st) && st < NUM_STATES && !Delay(st) && !Skips(s.variant, st) && st != UPLOAD
    ensures var s' := if st == CHUNK_SIZE then s.(offset := 0) else s;
            Pending(s'.(phase := Waiting(st), wire := s.wire + [Command(s', st)]), st)
  {
    hide Sent, Polls, NoAfeWrite, Pieces, NumChunks;
    var s' := if st == CHUNK_SIZE then s.(offset := 0) else s;
    var u := Command(s', st);
    assert !(u.BulkOut? && |u.data| == CHUNK);
    assert u == POLL <==> st == MCU_POLL;
    assert !(u.Out? && u.req == 0x3b);
    hide Command;
    Submitted(s.wire, u);
  }

  /** Passing over a state that has nothing to do. */
  lemma PassOver(s: Init, st: nat)
    requires MayEnter(s, st) && st < NUM_STATES
    requires Skips(s.variant, st) || (st == UPLOAD && s.offset >= |s.fw|)
    ensures MayEnter(s, st + 1)
  {
    hide Sent, Polls, NoAfeWrite, Pieces, NumChunks;
    if st == UPLOAD {
      NotAllSent(s.fw, s.offset / CHUNK);
    }
  }

  lemma {:induction false} EnterOk(s: Init, st: nat)
    requires MayEnter(s, st)
    ensures Inv(Enter(s, st))
    decreases NUM_STATES - st
  {
    hide Sent, Polls, Pieces, NumChunks, NoAfeWrite, Command, Chunk;
    if st < NUM_STATES {
      if Skips(s.variant, st) || (st == UPLOAD && s.offset >= |s.fw|) {
        PassOver(s, st);
        EnterOk(s, st + 1);
      } else if Delay(st) {
        AfterDelay(s, st);
      } else if st == UPLOAD {
        EnterUpload(s);
        assert Enter(s, st) == s.(phase := Waiting(st), wire := s.wire + [BulkOut(Chunk(s.fw, s.offset))]) by {
          UploadCommand(s);
        }
      } else {
        EnterOther(s, st);
      }
    }
  }

  lemma UploadCommand(s: Init)
    requires s.offset < |s.fw|
    ensures Command(s, UPLOAD) == BulkOut(Chunk(s.fw, s.offset))
  {
  }

  lemma AfterDelay(s: Init, st: nat)
    requires MayEnter(s, st) && Delay(st)
    ensures MayEnter(s.(phase := Sleeping(st + 1)), st + 1)
  {
  }

  lemma PollOk(s: Init, data: seq<u8>)
    requires Pending(s, MCU_POLL)
    ensures Inv(PollReply(s, data))
  {
    hide Enter, UploadAt, Sent, Polls, NoAfeWrite, ByteAt;
    if ByteAt(data, 0) == 0xa5 && ByteAt(data, 1) == 0x5a {
      assert MayEnter(s, MCU_POLL + 1) by { LaterUpload(s, s, MCU_POLL, MCU_POLL + 1); }
      EnterOk(s, MCU_POLL + 1);
    } else {
      var s' := s.(retries := s.retries + 1);
      if s'.retries <= MAX_RETRIES {
        LaterUpload(s, s', MCU_POLL, MCU_WAIT);
        EnterOk(s', MCU_WAIT);
      }
    }
  }

  /** Past the upload nothing about it changes any more. */
  lemma LaterUpload(s: Init, s': Init, st: nat, st': nat)
    requires UploadAt(s, st) && st > UPLOAD && st' > UPLOAD && s'.wire == s.wire && s'.fw == s.fw
    ensures UploadAt(s', st')
  {
  }

  lemma ChunkOk(s: Init)
    requires Pending(s, UPLOAD)
    ensures Inv(s.(offset := W32(s.offset + CHUNK), phase := Sleeping(UPLOAD)))
  {
    hide Sent, Polls, NoAfeWrite, Pieces, NumChunks;
    var k := s.offset / CHUNK;
    assert |s.fw| <= MAX_FW ==> s.offset + CHUNK < 0x1_0000_0000;
    assert (s.offset + CHUNK) / CHUNK == k + 1;
  }

  lemma VerifyOk(s: Init)
    requires Pending(s, VERIFY_READ)
    ensures MayEnter(s, SENSOR_RESET)
  {
    hide UploadAt, NoAfeWrite;
    LaterUpload(s, s, VERIFY_READ, SENSOR_RESET);
  }

  lemma FieldEnters(s: Init, s': Init, st: nat)
    requires Pending(s, st) && s' == s.(reg := s'.reg, width := s'.width, height := s'.height, variant := s'.variant)
    requires st != UPLOAD && st != MCU_POLL && st != VERIFY_READ && (st >= SPI_R_F3 ==> s'.variant == 1)
    ensures MayEnter(s', st + 1)
  {
    hide Enter, Sent, Polls, NoAfeWrite, NumChunks, UploadAt;
    if st == CHUNK_SIZE {
      UploadStarts(s, s');
    } else {
      UploadPasses(s, s', st);
    }
  }

  lemma UploadStarts(s: Init, s': Init)
    requires UploadAt(s, CHUNK_SIZE) && s'.wire == s.wire && s'.fw == s.fw && s'.offset == 0
    ensures UploadAt(s', UPLOAD)
  {
    assert Pieces(s.fw, 0) == [];
  }

  lemma UploadPasses(s: Init, s': Init, st: nat)
    requires UploadAt(s, st) && st != CHUNK_SIZE && st != UPLOAD && s'.wire == s.wire && s'.fw == s.fw
    ensures UploadAt(s', st + 1)
  {
  }

  /** A reply that only fills in a register or a dimension. */
  lemma FieldOk(s: Init, s': Init, st: nat)
    requires Pending(s, st)
    requires s' == s.(reg := s'.reg, width := s'.width, height := s'.height, variant := s'.variant)
    requires st != UPLOAD && st != MCU_POLL && st != VERIFY_READ && (st >= SPI_R_F3 ==> s'.variant == 1)
    ensures Inv(Enter(s', st + 1))
  {
    hide Enter, MayEnter;
    FieldEnters(s, s', st);
    EnterOk(s', st + 1);
  }

  lemma ReactOk(s: Init, st: nat, data: seq<u8>)
    requires Inv(s) && s.phase == Waiting(st)
    ensures Inv(React(s, st, data))
  {
    hide Enter, PollReply, Pending, MayEnter, NoAfeWrite, Polls, ByteAt, OrDefault;
    PendingFacts(s, st);
    if st == SPI_R_F4 {
      FieldOk(s, s.(reg := ByteAt(data, 0)), st);
    } else if st == SPI_R_F3 {
      FieldOk(s, s.(variant := 1), st);
    } else if st == UPLOAD {
      ChunkOk(s);
    } else if st == VERIFY_READ {
      VerifyOk(s);
      EnterOk(s, SENSOR_RESET);
    } else if st == MCU_POLL {
      PollOk(s, data);
    } else if st == READ_W {
      FieldOk(s, s.(width := OrDefault(ByteAt(data, 0), 64)), st);
    } else if st == READ_H {
      FieldOk(s, s.(height := OrDefault(ByteAt(data, 0), 80)), st);
    } else {
      FieldOk(s, s, st);
    }
  }

  lemma PendingFacts(s: Init, st: nat)
    requires Pending(s, st)
    ensures Live(st) && (st > SPI_R_F3 ==> s.variant == 1) && Polls(s.wire) <= MAX_RETRIES + 1 && NoAfeWrite(s.wire)
  {
  }

  lemma StepOk(s: Init, e: Event)
    requires Inv(s)
    ensures Inv(Step(s, e))
  {
    hide Enter, React, Pending, MayEnter, NoAfeWrite, Polls;
    if Expected(s, e) {
      match s.phase
      case Sleeping(next) => EnterOk(s, next);
      case Waiting(st) =>
        PendingFacts(s, st);
        if e.Transferred? {
          ReactOk(s, st, e.data);
        } else if Optional(st) {
          FieldOk(s, s, st);
        }
    }
  }

  lemma {:induction false} RunOk(s: Init, events: seq<Event>)
    requires Inv(s)
    ensures Inv(RunFrom(s, events))
    decreases events
  {
    hide Step, Inv;
    if events != [] {
      StepOk(s, events[0]);
      RunOk(Step(s, events[0]), events[1..]);
    }
  }

  lemma LegacyStarts(fw: seq<u8>, variant: u8, reg: u8, width: u8, height: u8)
    ensures Inv(LegacyOpening(fw, variant, reg, width, height))
  {
    EnterOk(Init(fw, variant, reg, 0, 0, width, height, Finished, []), LEGACY_ENTRY);
  }

  /** Any run of the legacy bring-up: at most 201 polls, no AFE register is written, and the states that would
      configure the MCU are never reached. */
  lemma LegacyRun(fw: seq<u8>, variant: u8, reg: u8, width: u8, height: u8, events: seq<Event>)
    ensures var s := RunFrom(LegacyOpening(fw, variant, reg, width, height), events);
            && Polls(s.wire) <= 201 && NoAfeWrite(s.wire)
            && (s.phase.Waiting? ==> LEGACY_ENTRY <= s.phase.state && !(CFG_FIRST <= s.phase.state <= CFG_LAST))
  {
    hide RunFrom, LegacyOpening, Polls, NoAfeWrite;
    LegacyStarts(fw, variant, reg, width, height);
    RunOk(LegacyOpening(fw, variant, reg, width, height), events);
    var s := RunFrom(LegacyOpening(fw, variant, reg, width, height), events);
    if s.phase.Waiting? { PendingFacts(s, s.phase.state); }
  }

  // ---- what an upload sends ----

  function Flatten(p: seq<seq<u8>>): seq<u8> {
    if p == [] then [] else Flatten(p[..|p| - 1]) + p[|p| - 1]
  }

  /** The firmware, zero-padded to a multiple of 64. */
  function Padded(fw: seq<u8>): (r: seq<u8>)
    ensures |r| == NumChunks(fw) * CHUNK
  {
    fw + seq(NumChunks(fw) * CHUNK - |fw|, _ => 0)
  }

  lemma ChunkIsSlice(fw: seq<u8>, k: nat)
    requires |fw| < 0x1_0000_0000 && k < NumChunks(fw)
    ensures k * 64 < |fw| && (k + 1) * 64 <= |Padded(fw)|
    ensures Chunk(fw, k * 64) == Padded(fw)[k * 64..(k + 1) * 64]
  {
    NotAllSent(fw, k);
    var c, p := Chunk(fw, k * CHUNK), Padded(fw);
    assert (k + 1) * CHUNK <= NumChunks(fw) * CHUNK;
    forall j | 0 <= j < CHUNK ensures c[j] == p[k * CHUNK + j] {
    }
  }

  lemma {:induction false} PiecesFlatten(fw: seq<u8>, k: nat)
    requires |fw| < 0x1_0000_0000 && k <= NumChunks(fw)
    ensures k * CHUNK <= |Padded(fw)| && Flatten(Pieces(fw, k)) == Padded(fw)[..k * CHUNK]
  {
    hide Padded, Chunk;
    if k > 0 {
      PiecesFlatten(fw, k - 1);
      PiecesNext(fw, k - 1);
      ChunkIsSlice(fw, k - 1);
      assert Pieces(fw, k)[..k - 1] == Pieces(fw, k - 1);
    }
  }

  predicate PastUpload(s: Init) {
    match s.phase
    case Waiting(st) => st > UPLOAD
    case Sleeping(next) => next > UPLOAD
    case Finished => true
    case Failed => false
  }

  /** Once a run is past the upload it has sent exactly ceil(size/64) chunks, which make up the zero-padded
      firmware. */
  lemma UploadIsFirmware(fw: seq<u8>, variant: u8, reg: u8, width: u8, height: u8, events: seq<Event>)
    ensures var s := RunFrom(LegacyOpening(fw, variant, reg, width, height), events);
            PastUpload(s) ==> |Sent(s.wire)| == NumChunks(fw) && Flatten(Sent(s.wire)) == Padded(fw)
  {
    hide RunFrom, LegacyOpening, Polls, NoAfeWrite, Padded, NumChunks, Sent;
    var s0 := LegacyOpening(fw, variant, reg, width, height);
    LegacyStarts(fw, variant, reg, width, height);
    RunOk(s0, events);
    FirmwareKept(s0, events);
    LegacyFirmware(fw, variant, reg, width, height);
    if |fw| <= MAX_FW { PiecesFlatten(fw, NumChunks(fw)); }
  }

  lemma {:induction false} EnterKeepsFirmware(s: Init, st: nat)
    ensures Enter(s, st).fw == s.fw
    decreases NUM_STATES - st
  {
    hide Command, Skips, Delay;
    if st < NUM_STATES && (Skips(s.variant, st) || (st == UPLOAD && s.offset >= |s.fw|)) {
      EnterKeepsFirmware(s, st + 1);
    }
  }

  lemma LegacyFirmware(fw: seq<u8>, variant: u8, reg: u8, width: u8, height: u8)
    ensures LegacyOpening(fw, variant, reg, width, height).fw == fw
  {
    hide Enter;
    EnterKeepsFirmware(Init(fw, variant, reg, 0, 0, width, height, Finished, []), LEGACY_ENTRY);
  }

  lemma StepKeepsFirmware(s: Init, e: Event)
    ensures Step(s, e).fw == s.fw
  {
    hide Enter;
    forall s': Init, st: nat ensures Enter(s', st).fw == s'.fw { EnterKeepsFirmware(s', st); }
  }

  lemma {:induction false} FirmwareKept(s: Init, events: seq<Event>)
    ensures RunFrom(s, events).fw == s.fw
    decreases events
  {
    hide Step;
    if events != [] {
      StepKeepsFirmware(s, events[0]);
      FirmwareKept(Step(s, events[0]), events[1..]);
    }
  }

  // ---- termination ----

  /** Every event comes when the machine waits for it. */
  predicate AllExpected(s: Init, events: seq<Event>)
    decreases events
  {
    events == [] || (Expected(s, events[0]) && AllExpected(Step(s, events[0]), events[1..]))
  }

  /** Chunks still to send when state st is next or current. */
  function ChunksLeft(s: Init, st: nat): nat {
    if st < UPLOAD then NumChunks(s.fw)
    else if st == UPLOAD && s.offset < |s.fw| then (|s.fw| - s.offset + CHUNK - 1) / CHUNK else 0
  }

  function PollsLeft(s: Init): nat { if s.retries <= MAX_RETRIES then MAX_RETRIES + 1 - s.retries else 0 }

  /** What is left when state st is entered. */
  function BudgetAt(s: Init, st: nat): nat {
    if st < NUM_STATES then 2 * (NUM_STATES - st) + 2 * ChunksLeft(s, st) + 2 * PollsLeft(s) else 0
  }

  /** State phase, chunks left and polls left in one number: a chunk or a poll takes two events, and every state at
      most two. */
  function Budget(s: Init): nat {
    match s.phase
    case Waiting(st) => BudgetAt(s, st)
    case Sleeping(next) => BudgetAt(s, next) + 1
    case _ => 0
  }

  lemma {:induction false} EnterBudget(s: Init, st: nat)
    ensures Budget(Enter(s, st)) <= BudgetAt(s, st)
    decreases NUM_STATES - st
  {
    hide Command, Skips, NumChunks;
    if st < NUM_STATES && (Skips(s.variant, st) || (st == UPLOAD && s.offset >= |s.fw|)) { EnterBudget(s, st + 1); }
  }

  lemma PollBudget(s: Init, data: seq<u8>)
    requires s.phase == Waiting(MCU_POLL) && s.retries <= MAX_RETRIES
    ensures Budget(PollReply(s, data)) < Budget(s)
  {
    hide Command, ByteAt;
    EnterBudget(s, MCU_POLL + 1);
  }

  lemma ChunkBudget(s: Init)
    requires s.phase == Waiting(UPLOAD) && s.offset < |s.fw| <= MAX_FW && s.offset % CHUNK == 0
    ensures Budget(s.(offset := W32(s.offset + CHUNK), phase := Sleeping(UPLOAD))) < Budget(s)
  {
    assert s.offset + CHUNK < 0x1_0000_0000;
  }

  lemma ReactBudget(s: Init, st: nat, data: seq<u8>)
    requires Inv(s) && s.phase == Waiting(st) && |s.fw| <= MAX_FW
    ensures Budget(React(s, st, data)) < Budget(s)
  {
    hide Enter, PollReply, ByteAt, OrDefault, UploadAt, NoAfeWrite, NumChunks;
    if st == UPLOAD {
      ChunkBudget(s);
    } else if st == MCU_POLL {
      PollBudget(s, data);
    } else {
      EnterBudget(s, if st == VERIFY_READ then SENSOR_RESET else st + 1);
      EnterBudget(s.(reg := ByteAt(data, 0)), st + 1);
      EnterBudget(s.(variant := 1), st + 1);
      EnterBudget(s.(width := OrDefault(ByteAt(data, 0), 64)), st + 1);
      EnterBudget(s.(height := OrDefault(ByteAt(data, 0), 80)), st + 1);
    }
  }

  lemma StepBudget(s: Init, e: Event)
    requires Inv(s) && Expected(s, e) && |s.fw| <= MAX_FW
    ensures Budget(Step(s, e)) < Budget(s)
  {
    hide Enter, React, UploadAt, PollsAt, NoAfeWrite, NumChunks;
    match s.phase
    case Sleeping(next) => EnterBudget(s, next);
    case Waiting(st) => if e.Transferred? { ReactBudget(s, st, e.data); } else { EnterBudget(s, st + 1); }
  }

  lemma {:induction false} RunBudget(s: Init, events: seq<Event>)
    requires Inv(s) && AllExpected(s, events) && |s.fw| <= MAX_FW
    ensures |events| <= Budget(s)
    decreases events
  {
    hide Step, Inv, Budget, Expected;
    if events != [] {
      StepBudget(s, events[0]);
      StepOk(s, events[0]);
      StepKeepsFirmware(s, events[0]);
      RunBudget(Step(s, events[0]), events[1..]);
    }
  }

  /** At most so many events from the start of the legacy bring-up to its end. */
  function LegacyBound(fw: seq<u8>): nat {
    2 * (NUM_STATES - LEGACY_ENTRY) + 2 * NumChunks(fw) + 2 * (MAX_RETRIES + 1)
  }

  lemma LegacyEnds(fw: seq<u8>, variant: u8, reg: u8, width: u8, height: u8, events: seq<Event>)
    requires |fw| <= MAX_FW && AllExpected(LegacyOpening(fw, variant, reg, width, height), events)
    ensures |events| <= LegacyBound(fw)
  {
    hide Enter, AllExpected, NumChunks, Inv;
    LegacyStarts(fw, variant, reg, width, height);
    LegacyFirmware(fw, variant, reg, width, height);
    RunBudget(LegacyOpening(fw, variant, reg, width, height), events);
    EnterBudget(Init(fw, variant, reg, 0, 0, width, height, Finished, []), LEGACY_ENTRY);
  }

  /** On its way to, or in, an upload whose offset can never reach the end of the firmware. */
  predicate Stuck(s: Init) {
    && |s.fw| > MAX_FW && s.offset % CHUNK == 0
    && match s.phase
       case Waiting(st) => LEGACY_ENTRY <= st <= UPLOAD && !Delay(st)
       case Sleeping(next) => LEGACY_ENTRY < next <= UPLOAD
       case _ => false
  }

  lemma EnterStuck(s: Init, st: nat)
    requires |s.fw| > MAX_FW && s.offset % CHUNK == 0 && LEGACY_ENTRY <= st <= UPLOAD
    ensures Stuck(Enter(s, st))
  {
    hide Command;
  }

  /** The event that keeps it going. */
  function Ack(s: Init): (e: Event) { if s.phase.Waiting? then Transferred([]) else Tick }

  lemma AckStuck(s: Init)
    requires Stuck(s)
    ensures Expected(s, Ack(s)) && Stuck(Step(s, Ack(s)))
  {
    hide Enter;
    if s.phase.Sleeping? {
      EnterStuck(s, s.phase.next);
    } else if s.phase.state != UPLOAD {
      EnterStuck(s, s.phase.state + 1);
      EnterStuck(s.(reg := 0), s.phase.state + 1);
      EnterStuck(s.(variant := 1), s.phase.state + 1);
    }
  }

  lemma {:induction false} StuckRuns(s: Init, n: nat) returns (events: seq<Event>)
    requires Stuck(s)
    ensures |events| == n && AllExpected(s, events)
    decreases n
  {
    if n == 0 {
      events := [];
    } else {
      AckStuck(s);
      var rest := StuckRuns(Step(s, Ack(s)), n - 1);
      events := [Ack(s)] + rest;
      assert events[1..] == rest;
    }
  }

  /** No behaviour of the sensor keeps the machine going for more than b events. */
  ghost predicate Bounded(s: Init, b: nat) {
    forall events :: AllExpected(s, events) ==> |events| <= b
  }

  /** The bring-up ends, within a bound that holds for all behaviours of the sensor, exactly when the u32 offset can
      reach the end of the firmware. */
  lemma LegacyTerminates(fw: seq<u8>, variant: u8, reg: u8, width: u8, height: u8)
    ensures (exists b: nat :: Bounded(LegacyOpening(fw, variant, reg, width, height), b)) <==> |fw| <= MAX_FW
  {
    hide LegacyOpening, AllExpected;
    var s := LegacyOpening(fw, variant, reg, width, height);
    if |fw| <= MAX_FW {
      forall events | AllExpected(s, events) ensures |events| <= LegacyBound(fw) {
        LegacyEnds(fw, variant, reg, width, height, events);
      }
      assert Bounded(s, LegacyBound(fw));
    } else {
      LegacyStuck(fw, variant, reg, width, height);
      forall b: nat ensures !Bounded(s, b) { var events := StuckRuns(s, b + 1); }
    }
  }

  lemma LegacyStuck(fw: seq<u8>, variant: u8, reg: u8, width: u8, height: u8)
    requires |fw| > MAX_FW
    ensures Stuck(LegacyOpening(fw, variant, reg, width, height))
  {
    EnterStuck(Init(fw, variant, reg, 0, 0, width, height, Finished, []), LEGACY_ENTRY);
  }
}
