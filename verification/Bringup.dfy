/** The device object of src/ft9201.c while it is being opened: the fields the opening state machine updates. */
module Bringup {
  import opened Bytes
  import opened Wire
  import opened BringupSpec

  class Opener {
    /** The embedded firmware and the scratch buffer for one chunk of it. */
    const fw: seq<u8>
    const chunkBuf: array<u8>
    var sensorVariant: u8
    var regBuf: u8
    var fwOffset: u32
    var fwRetries: u32
    var sensorWidth: u8
    var sensorHeight: u8
    var phase: Phase
    var wire: seq<Usb>

    ghost predicate Valid() { chunkBuf.Length == CHUNK }

    ghost function View(): Init
      reads this
    {
      Init(fw, sensorVariant, regBuf, fwOffset, fwRetries, sensorWidth, sensorHeight, phase, wire)
    }

    constructor (fw: seq<u8>)
      ensures Valid() && fresh(chunkBuf) && this.fw == fw
      ensures View() == Init(fw, 0, 0, 0, 0, 0, 0, Finished, [])
    {
      this.fw := fw;
      chunkBuf := new u8[CHUNK](_ => 0);
      sensorVariant, regBuf, fwOffset, fwRetries, sensorWidth, sensorHeight := 0, 0, 0, 0, 0, 0;
      phase, wire := Finished, [];
    }

    /** dev_open. */
    method DevOpen()
      requires Valid()
      modifies this, chunkBuf
      ensures View() == Enter(old(View()).(offset := 0, retries := 0), 0)
    {
      hide Enter;
      fwOffset, fwRetries := 0, 0;
      RunState(0);
    }

    // ---- dispatcher ----

    /** memset and memcpy of one chunk. */
    method FillChunk()
      requires Valid() && fwOffset < |fw|
      modifies chunkBuf
      ensures chunkBuf[..] == Chunk(fw, fwOffset)
    {
      var n := ChunkLen(fw, fwOffset);
      for i := 0 to CHUNK
        invariant forall k :: 0 <= k < i ==> chunkBuf[k] == 0
      {
        chunkBuf[i] := 0;
      }
      for i := 0 to n
        invariant forall k :: 0 <= k < i ==> chunkBuf[k] == fw[fwOffset + k]
        invariant forall k :: i <= k < CHUNK ==> chunkBuf[k] == 0
      {
        chunkBuf[i] := fw[fwOffset + i];
      }
    }

    /** init_ssm_run_state from state `first` on, until the machine waits for something. */
    method RunState(first: nat)
      requires Valid()
      modifies this, chunkBuf
      ensures View() == Enter(old(View()), first)
    {
      hide Chunk, Skips, Delay;
      var st := first;
      while st < NUM_STATES && (Skips(sensorVariant, st) || (st == UPLOAD && fwOffset >= |fw|))
        invariant View() == old(View()) && Enter(View(), st) == Enter(View(), first)
        decreases NUM_STATES - st
      {
        st := st + 1;
      }
      if st >= NUM_STATES {
        phase := Finished;
      } else if Delay(st) {
        phase := Sleeping(st + 1);
      } else if st == UPLOAD {
        FillChunk();
        phase := Waiting(st);
        wire := wire + [BulkOut(chunkBuf[..])];
      } else {
        if st == CHUNK_SIZE { fwOffset := 0; }
        var now := Init(fw, sensorVariant, regBuf, fwOffset, fwRetries, sensorWidth, sensorHeight, phase, wire);
        var u := Command(now, st);
        phase := Waiting(st);
        wire := wire + [u];
      }
    }

    // ---- transfer callbacks ----

    /** info_9338_cb. */
    method InfoCallback(data: seq<u8>)
      modifies this
      ensures View() == InfoReply(old(View()), data)
    {
      if |data| < 25 {
        phase := Failed;
        return;
      }
      sensorWidth := OrDefault(data[23], 64);
      sensorHeight := OrDefault(data[24], 80);
      phase := Finished;
    }

    /** mcu_poll_cb. */
    method PollCallback(data: seq<u8>)
      requires Valid()
      modifies this, chunkBuf
      ensures View() == PollReply(old(View()), data)
    {
      hide Enter;
      if ByteAt(data, 0) == 0xa5 && ByteAt(data, 1) == 0x5a {
        RunState(MCU_POLL + 1);
        return;
      }
      fwRetries := W32(fwRetries + 1);
      if fwRetries > MAX_RETRIES {
        phase := Failed;
        return;
      }
      RunState(MCU_WAIT);
    }

    /** Completion of the transfer of state st. */
    method Callback(st: nat, data: seq<u8>)
      requires Valid()
      modifies this, chunkBuf
      ensures View() == React(old(View()), st, data)
    {
      hide Enter, PollReply, InfoReply;
      if st == INFO_READ {
        InfoCallback(data);
      } else if st == MCU_POLL {
        PollCallback(data);
      } else if st == UPLOAD {
        fwOffset := W32(fwOffset + CHUNK);
        phase := Sleeping(UPLOAD);
      } else if st == VERIFY_READ {
        if |data| < |fw| || data[..|fw|] != fw {
          phase := Failed;
          return;
        }
        RunState(SENSOR_RESET);
      } else {
        if st == SPI_R_F4 { regBuf := ByteAt(data, 0); }
        if st == SPI_R_F3 { sensorVariant := 1; }
        if st == READ_W { sensorWidth := OrDefault(ByteAt(data, 0), 64); }
        if st == READ_H { sensorHeight := OrDefault(ByteAt(data, 0), 80); }
        RunState(st + 1);
      }
    }

    method Handle(e: Event)
      requires Valid()
      modifies this, chunkBuf
      ensures View() == Step(old(View()), e)
    {
      hide Enter, React;
      match phase
      case Waiting(st) =>
        match e {
          case Tick =>
          case TransferFailed => if Optional(st) { RunState(st + 1); } else { phase := Failed; }
          case Transferred(data) => Callback(st, data);
        }
      case Sleeping(next) => if e.Tick? { RunState(next); }
      case Finished =>
      case Failed =>
    }

    method Run(events: seq<Event>)
      requires Valid()
      modifies this, chunkBuf
      ensures View() == RunFrom(old(View()), events)
    {
      hide Step;
      for i := 0 to |events|
        invariant RunFrom(View(), events[i..]) == RunFrom(old(View()), events)
      {
        assert events[i..][0] == events[i] && events[i..][1..] == events[i + 1..];
        Handle(events[i]);
      }
    }
  }
}
