/** The scan state machine and the enroll/verify/identify controller of src/ft9201.c as a function of events.
    The environment is adversarial: any transfer may fail or bring any bytes, and the engine may answer anything. */
module ScanSpec {
  import opened Bytes
  import opened Pixels
  import opened Wire

  // ---- what the driver does to the outside ----

  datatype Kind = Enroll | Verify | Identify

  datatype Result = Failed | Done | Template(blob: seq<u8>)

  /** None stands for a stored print whose data is missing or of the wrong type. */
  type Print = Option<seq<u8>>

  /** Everything but USB transfers worth remembering, in order: operations and scans starting and ending, engine calls
      with their answers, and reports to libfprint. */
  datatype Act =
    | OpStart(kind: Kind, prints: seq<Print>)
    | ScanStart
    | FingerSeen
    | Captured(frame: seq<u8>)
    | LiftSeen
    | ScanFailed
    | Background(stored: Option<seq<u8>>)
    | Begin
    | Accept(frame: seq<u8>, purpose: u8, hr: u32)
    | Update(status: nat)
    | Commit(blob: Option<seq<u8>>)
    | VerifyCall(index: nat, tmpl: seq<u8>, hit: bool)
    | Progress(count: nat, retry: bool)
    | VerifyReport(matched: bool)
    | IdentifyReport(found: Option<nat>)
    | IdentifyRetry
    | OpComplete(kind: Kind, result: Result)

  /** What the engine answers if the scan that is now completing calls it. */
  datatype Answers = Answers(accept: u32, updateHr: u32, updateRej: u32, statusHr: u32,
                             commit: Option<seq<u8>>, verify: nat -> bool)

  /** The engine's answer to a frame it does not keep. */
  const REJECTED: u32 := 0x8009_8008

  /** ft_engine_enroll_update: 0 complete, 1 more samples, 2 frame rejected. */
  function UpdateStatus(a: Answers): nat {
    if a.updateHr == REJECTED || a.updateRej != 0 then 2 else if a.statusHr == 0 then 0 else 1
  }

  const MAX_TEMPLATE: nat := 0x10_0000

  /** ft_engine_verify refuses an empty or oversized template before it asks the engine. */
  function EngineVerify(tmpl: seq<u8>, answer: bool): bool {
    0 < |tmpl| <= MAX_TEMPLATE && answer
  }

  const STAGES: nat := 18

  // ---- the device ----

  datatype Phase = Idle | Scanning(state: nat)

  /** `size` is width times height, the length of a frame. */
  datatype Dev = Dev(
    size: nat, engineOk: bool, useFpn: bool,
    frame: seq<u8>, background: seq<u8>, hasBackground: bool, scanOk: bool,
    isVerify: bool, isIdentify: bool, enrollDone: nat, tmpl: seq<u8>, gallery: seq<Print>,
    phase: Phase, wire: seq<Usb>, log: seq<Act>)
  {
    /** image_buf holds a frame and two quality bytes. */
    predicate Buffers() { |frame| == size + 2 && |background| == size }

    function Kind(): Kind { if isIdentify then Identify else if isVerify then Verify else Enroll }

    function Add(a: Act): Dev { this.(log := log + [a]) }

    /** Same device, with buffers of the right size. */
    predicate Continues(s: Dev) {
      Buffers() && size == s.size && engineOk == s.engineOk && useFpn == s.useFpn
    }
  }

  // ---- scan states, numbered as in the source ----

  const WAIT_DELAY: nat := 0
  const WAIT_FINGER: nat := 1
  const CAPTURE_READ: nat := 12
  const LIFT_DELAY: nat := 13
  const WAIT_LIFT: nat := 14
  const LEGACY: nat := 15
  const BG_READ: nat := 19
  const LEGACY_WAIT_DELAY: nat := 20
  const LEGACY_WAIT_FINGER: nat := 21
  const READ_IMAGE: nat := 27
  const SUBMIT: nat := 28
  const LEGACY_LIFT_DELAY: nat := 29
  const LEGACY_WAIT_LIFT: nat := 30
  const NUM_STATES: nat := 31

  /** The transfer a state submits on entry; None for a delay and for the computing state. */
  function Command(st: nat, size: nat): Option<Usb> {
    if st == 1 || st == 14 then Some(In(0x43, 0, 1))
    else if st == 2 || st == 5 || st == 7 || st == 10 then Some(ARM)
    else if st == 3 || st == 8 then Some(STATUS_CMD)
    else if st == 4 || st == 9 then Some(BulkIn(32))
    else if st == 6 then Some(SELECT_CMD)
    else if st == 11 then Some(CAPTURE_CMD)
    else if st == 12 then Some(BulkIn(size))
    else if st == 15 || st == 23 then Some(RESET)
    else if st == 17 || st == 25 then Some(ARM)
    else if st == 18 || st == 26 then Some(Out(0x35, (size + 2) % 0x1_0000, 0x3400))
    else if st == 19 || st == 27 then Some(BulkIn(size + 2))
    else if st == 21 || st == 30 then Some(In(0x3a, 0x1d, 4))
    else None
  }

  /** The legacy image processing of SCAN_SUBMIT. */
  function Submit(s: Dev): (r: Dev)
    requires s.Buffers()
    ensures r.Continues(s)
  {
    var n := s.size;
    var ok := !(s.frame[n] == 0 && s.frame[n + 1] == 0);
    if !ok then s.(scanOk := false)
    else
      var fixed := if s.hasBackground && s.useFpn then Fpn(s.frame[..n], s.background) else s.frame[..n];
      s.(scanOk := true, frame := Stretch(fixed) + s.frame[n..])
  }

  /** Enter a state and submit its transfer; the computing state moves on at once. */
  function Enter(s: Dev, st: nat): (r: Dev)
    requires s.Buffers()
    ensures r.Continues(s)
  {
    if st == SUBMIT then Submit(s).(phase := Scanning(SUBMIT + 1))
    else
      var c := Command(st, s.size);
      s.(phase := Scanning(st), wire := if c.Some? then s.wire + [c.value] else s.wire)
  }

  function StartScan(s: Dev): (r: Dev)
    requires s.Buffers()
    ensures r.Continues(s)
  {
    hide Enter;
    Enter(s.Add(ScanStart), WAIT_DELAY)
  }

  function Complete(s: Dev, result: Result): (r: Dev)
    ensures s.Buffers() ==> r.Continues(s)
  {
    s.(phase := Idle).Add(OpComplete(s.Kind(), result))
  }

  // ---- scan_ssm_complete ----

  /** Report a retry for the current stage: identify ends, verify silently rescans, enroll reports and rescans. */
  function Retry(s: Dev): (r: Dev)
    requires s.Buffers()
    ensures r.Continues(s)
  {
    hide StartScan, Complete;
    match s.Kind()
    case Identify => Complete(s.Add(IdentifyRetry), Done)
    case Verify => StartScan(s)
    case Enroll => StartScan(s.Add(Progress(s.enrollDone, true)))
  }

  function CompleteWithError(s: Dev, retry: bool): (r: Dev)
    ensures s.Buffers() ==> r.Continues(s)
  {
    if s.Kind().Identify? && retry then Complete(s.Add(IdentifyRetry), Done) else Complete(s, Failed)
  }

  datatype Found = Match(index: nat) | NoMatch | Invalid

  /** The gallery loop from print i on: how it ends, and the engine calls it makes. */
  function Search(gallery: seq<Print>, verify: nat -> bool, i: nat): (Found, seq<Act>)
    decreases |gallery| - i
  {
    if i >= |gallery| then (NoMatch, [])
    else if gallery[i].None? then (Invalid, [])
    else
      var t := gallery[i].value;
      if t == [] then Search(gallery, verify, i + 1)
      else
        var hit := EngineVerify(t, verify(i));
        if hit then (Match(i), [VerifyCall(i, t, true)])
        else
          var (r, calls) := Search(gallery, verify, i + 1);
          (r, [VerifyCall(i, t, false)] + calls)
  }

  function IdentifyDone(s: Dev, a: Answers): (r: Dev)
    ensures s.Buffers() ==> r.Continues(s)
  {
    hide Complete, Search;
    var (r, calls) := Search(s.gallery, a.verify, 0);
    var s' := s.(log := s.log + calls);
    match r
    case Invalid => Complete(s', Failed)
    case NoMatch => Complete(s'.Add(IdentifyReport(None)), Done)
    case Match(i) => Complete(s'.Add(IdentifyReport(Some(i))), Done)
  }

  function VerifyDone(s: Dev, a: Answers): (r: Dev)
    ensures s.Buffers() ==> r.Continues(s)
  {
    hide Complete, EngineVerify;
    var hit := EngineVerify(s.tmpl, a.verify(0));
    Complete(s.Add(VerifyCall(0, s.tmpl, hit)).Add(VerifyReport(hit)), Done)
  }

  /** The engine has kept a frame: report it, then scan on, or commit when the engine is done or this was the last
      stage. */
  function FrameKept(s: Dev, st: nat, blob: Option<seq<u8>>): (r: Dev)
    requires s.Buffers()
    ensures r.Continues(s)
  {
    hide StartScan, Complete;
    var n := s.enrollDone + 1;
    var s' := s.(enrollDone := n).Add(Progress(n, false));
    if n < STAGES && st != 0 then StartScan(s')
    else Complete(s'.Add(Commit(blob)), if blob.None? then Failed else Template(blob.value))
  }

  function EnrollStep(s: Dev, a: Answers): (r: Dev)
    requires s.Buffers()
    ensures r.Continues(s)
  {
    hide StartScan, FrameKept, UpdateStatus;
    var st := UpdateStatus(a);
    var s' := s.Add(Update(st));
    if st == 2 then StartScan(s'.Add(Progress(s.enrollDone, true))) else FrameKept(s', st, a.commit)
  }

  function Purpose(k: Kind): u8 { if k == Enroll then 4 else 1 }

  /** A scan has ended well: hand its frame to the engine and go on from there. */
  function ScanDone(s: Dev, a: Answers): (r: Dev)
    requires s.Buffers()
    ensures r.Continues(s)
  {
    hide Retry, Complete, IdentifyDone, VerifyDone, EnrollStep;
    if !s.scanOk then Retry(s)
    else if !s.engineOk then Complete(s, Failed)
    else
      var s' := s.Add(Accept(s.frame[..s.size], Purpose(s.Kind()), a.accept));
      if a.accept != 0 then Retry(s')
      else
        match s.Kind()
        case Identify => IdentifyDone(s', a)
        case Verify => VerifyDone(s', a)
        case Enroll => EnrollStep(s', a)
  }

  // ---- events ----

  datatype Event =
    | BeginEnroll
    | BeginVerify(stored: Print)
    | BeginIdentify(prints: seq<Print>)
    | Tick
    | TransferFailed(retry: bool)
    | Transferred(data: seq<u8>, answers: Answers)

  /** First byte of a transfer buffer, which starts out zeroed. */
  function Byte0(data: seq<u8>): u8 { if data == [] then 0 else data[0] }

  /** image_9338_cb: a short frame fails the scan, a whole one replaces the frame buffer's contents. */
  function Capture(s: Dev, data: seq<u8>): (r: Dev)
    requires s.Buffers()
    ensures r.Continues(s)
  {
    hide Enter, CompleteWithError;
    if |data| < s.size then CompleteWithError(s.Add(ScanFailed), false)
    else
      var t := s.(frame := data[..s.size] + s.frame[s.size..], scanOk := true);
      Enter(t.Add(Captured(data[..s.size])), LIFT_DELAY)
  }

  /** The background frame could not be read. */
  function DropBackground(s: Dev): (r: Dev)
    requires s.Buffers()
    ensures r.Continues(s)
  {
    hide Enter;
    Enter(s.(hasBackground := false).Add(Background(None)), BG_READ + 1)
  }

  /** scan_bg_image_cb: a short background frame is dropped. */
  function CaptureBackground(s: Dev, data: seq<u8>): (r: Dev)
    requires s.Buffers()
    ensures r.Continues(s)
  {
    hide Enter, DropBackground;
    if |data| >= s.size + 2 then
      var b := data[2..s.size + 2];
      Enter(s.(background := b, hasBackground := true).Add(Background(Some(b))), BG_READ + 1)
    else DropBackground(s)
  }

  /** scan_image_cb: quality bytes come first; a short frame invalidates them. */
  function CaptureLegacy(s: Dev, data: seq<u8>): (r: Dev)
    requires s.Buffers()
    ensures r.Continues(s)
  {
    hide Enter;
    if |data| >= s.size + 2 then
      Enter(s.(frame := data[2..s.size + 2] + data[..2]).Add(Captured(data[2..s.size + 2])), SUBMIT)
    else Enter(s.(frame := s.frame[..s.size] + [0, 0]), SUBMIT)
  }

  /** The callback of the transfer that state st had submitted. */
  function React(s: Dev, st: nat, data: seq<u8>, a: Answers): (r: Dev)
    requires s.Buffers()
    ensures r.Continues(s)
  {
    hide Enter, ScanDone, Capture, CaptureBackground, CaptureLegacy;
    if st == WAIT_FINGER then
      if Byte0(data) == 1 then Enter(s.Add(FingerSeen), st + 1) else Enter(s, WAIT_DELAY)
    else if st == CAPTURE_READ then Capture(s, data)
    else if st == WAIT_LIFT then
      if Byte0(data) == 0 then ScanDone(s.Add(LiftSeen), a) else Enter(s, LIFT_DELAY)
    else if st == BG_READ then CaptureBackground(s, data)
    else if st == LEGACY_WAIT_FINGER then
      if Byte0(data) == 0xa0 then Enter(s.Add(FingerSeen), st + 1) else Enter(s, LEGACY_WAIT_DELAY)
    else if st == READ_IMAGE then CaptureLegacy(s, data)
    else if st == LEGACY_WAIT_LIFT then
      if Byte0(data) != 0xa0 then ScanDone(s.Add(LiftSeen), a) else Enter(s, LEGACY_LIFT_DELAY)
    else Enter(s, st + 1)
  }

  function StartEnroll(s: Dev): (r: Dev)
    requires s.Buffers()
    ensures r.Continues(s)
  {
    hide StartScan;
    var reset := s.(isVerify := false, isIdentify := false, enrollDone := 0, hasBackground := false);
    var s' := reset.Add(OpStart(Enroll, []));
    StartScan(if s.engineOk then s'.Add(Begin) else s')
  }

  function StartVerify(s: Dev, stored: Print): (r: Dev)
    requires s.Buffers()
    ensures r.Continues(s)
  {
    hide StartScan;
    var s' := s.(isIdentify := false).Add(OpStart(Verify, [stored]));
    if stored.None? then s'.Add(OpComplete(Verify, Failed))
    else StartScan(s'.(tmpl := stored.value, isVerify := true, hasBackground := false))
  }

  function StartIdentify(s: Dev, prints: seq<Print>): (r: Dev)
    requires s.Buffers()
    ensures r.Continues(s)
  {
    hide StartScan;
    var s' := s.(isVerify := false, isIdentify := true, hasBackground := false, gallery := prints);
    StartScan(s'.Add(OpStart(Identify, prints)))
  }

  predicate Waiting(s: Dev) { s.phase.Scanning? && s.phase.state < NUM_STATES && Command(s.phase.state, s.size).Some? }

  /** libfprint begins an operation only on an idle device; a delay or a transfer only ends where one is pending.
      Anything else cannot happen and changes nothing. */
  function Step(s: Dev, e: Event): (r: Dev)
    requires s.Buffers()
    ensures r.Continues(s)
  {
    hide Enter, React, DropBackground, StartEnroll, StartVerify, StartIdentify, CompleteWithError, Command;
    match e
    case BeginEnroll => if s.phase.Idle? then StartEnroll(s) else s
    case BeginVerify(stored) => if s.phase.Idle? then StartVerify(s, stored) else s
    case BeginIdentify(prints) => if s.phase.Idle? then StartIdentify(s, prints) else s
    case Tick =>
      if s.phase.Scanning? && s.phase.state < NUM_STATES && !Waiting(s) then Enter(s, s.phase.state + 1) else s
    case TransferFailed(retry) =>
      if !Waiting(s) then s
      else if s.phase.state == BG_READ then DropBackground(s)
      else CompleteWithError(s.Add(ScanFailed), retry)
    case Transferred(data, a) => if Waiting(s) then React(s, s.phase.state, data, a) else s
  }

  function RunFrom(s: Dev, events: seq<Event>): (r: Dev)
    requires s.Buffers()
    decreases events
  {
    if events == [] then s else RunFrom(Step(s, events[0]), events[1..])
  }

  /** A freshly opened device; `wire` holds what opening it sent. */
  function Opened(width: u8, height: u8, engineOk: bool, useFpn: bool, wire: seq<Usb>): (s: Dev)
    ensures s.Buffers()
  {
    var n := width as int * height as int;
    Dev(n, engineOk, useFpn, seq(n + 2, _ => 0), seq(n, _ => 0), false, false, false, false, 0, [], [],
        Idle, wire, [])
  }
}
