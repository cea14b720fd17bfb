/** The legacy scan path, which no run of this sensor enters, from its own first state: what it hands to the engine. */
module ScanLegacy {
  import opened Bytes
  import opened Pixels
  import opened ScanSpec
  import opened ScanWire

  /** A scan that starts at SCAN_BG_RESET_EP. */
  function LegacyScan(s: Dev): (r: Dev)
    requires s.Buffers()
    ensures r.Continues(s)
  {
    hide Enter;
    Enter(s.Add(ScanStart), LEGACY)
  }

  /** What becomes of a captured frame: corrected by the background read in the same scan, if any, and stretched. */
  function Processed(useFpn: bool, background: Option<seq<u8>>, frame: seq<u8>): seq<u8>
    requires background.Some? ==> |background.value| == |frame|
  {
    Stretch(if background.Some? && useFpn then Fpn(frame, background.value) else frame)
  }

  /** The scan's own record of its background frame. */
  predicate Knows(s: Dev, b: Option<seq<u8>>) {
    s.hasBackground == b.Some? && (b.Some? ==> s.background == b.value && |b.value| == s.size)
  }

  predicate Passed(s: Dev, b: Option<seq<u8>>, c: seq<u8>)
    requires s.Buffers()
  {
    |c| == s.size && Knows(s, b) && (s.scanOk ==> s.frame[..s.size] == Processed(s.useFpn, b, c))
  }

  /** What the legacy scan that began at act o has logged by the time it is in state st. */
  predicate Standing(s: Dev, o: nat, st: nat)
    requires s.Buffers()
  {
    && o < |s.log| && s.log[o] == ScanStart
    && var acts := s.log[o + 1..];
       if st <= BG_READ then acts == []
       else if st <= LEGACY_WAIT_FINGER then |acts| == 1 && acts[0].Background? && Knows(s, acts[0].stored)
       else if st <= READ_IMAGE then
         |acts| == 2 && acts[0].Background? && Knows(s, acts[0].stored) && acts[1] == FingerSeen
       else
         && |acts| >= 2 && acts[0].Background? && acts[1] == FingerSeen
         && if |acts| == 2 then !s.scanOk
            else |acts| == 3 && acts[2].Captured? && Passed(s, acts[0].stored, acts[2].frame)
  }

  predicate InLegacy(s: Dev, o: nat) {
    && s.Buffers() && s.phase.Scanning? && LEGACY <= s.phase.state < NUM_STATES && s.phase.state != SUBMIT
    && Standing(s, o, s.phase.state)
  }

  /** The device has left the legacy states for good. */
  predicate Left(s: Dev) { s.Buffers() && (s.phase.Scanning? ==> s.phase.state < LEGACY) }

  // ---- acts added by a step ----

  /** r extends the log of s by acts none of which is an accept. */
  predicate AddsNoAccept(s: Dev, r: Dev) {
    s.log <= r.log && forall i :: |s.log| <= i < |r.log| ==> !r.log[i].Accept?
  }

  lemma StartScanAdds(s: Dev)
    requires s.Buffers()
    ensures AddsNoAccept(s, StartScan(s))
  {
  }

  lemma CompleteAdds(s: Dev, r: Result)
    ensures AddsNoAccept(s, Complete(s, r))
  {
  }

  lemma RetryAdds(s: Dev)
    requires s.Buffers()
    ensures AddsNoAccept(s, Retry(s))
  {
    hide StartScan, Complete;
    StartScanAdds(s);
    StartScanAdds(s.Add(Progress(s.enrollDone, true)));
    CompleteAdds(s.Add(IdentifyRetry), Done);
  }

  lemma ErrorAdds(s: Dev, retry: bool)
    ensures AddsNoAccept(s, CompleteWithError(s, retry))
  {
    hide Complete;
    CompleteAdds(s, Failed);
    CompleteAdds(s.Add(IdentifyRetry), Done);
  }

  lemma {:induction false} SearchAdds(gallery: seq<Print>, verify: nat -> bool, i: nat)
    ensures forall a :: a in Search(gallery, verify, i).1 ==> a.VerifyCall?
    decreases |gallery| - i
  {
    hide EngineVerify;
    if i < |gallery| { SearchAdds(gallery, verify, i + 1); }
  }

  lemma AddCalls(s: Dev, calls: seq<Act>)
    requires forall a :: a in calls ==> a.VerifyCall?
    ensures AddsNoAccept(s, s.(log := s.log + calls))
  {
    var log := s.log + calls;
    forall i | |s.log| <= i < |log| ensures !log[i].Accept? { assert log[i] in calls; }
  }

  lemma IdentifyAdds(s: Dev, a: Answers)
    ensures AddsNoAccept(s, IdentifyDone(s, a))
  {
    hide Search, Complete;
    SearchAdds(s.gallery, a.verify, 0);
    var (r, calls) := Search(s.gallery, a.verify, 0);
    var s' := s.(log := s.log + calls);
    AddCalls(s, calls);
    match r
    case Invalid => CompleteAdds(s', Failed);
    case NoMatch => CompleteAdds(s'.Add(IdentifyReport(None)), Done);
    case Match(i) => CompleteAdds(s'.Add(IdentifyReport(Some(i))), Done);
  }

  lemma VerifyAdds(s: Dev, a: Answers)
    ensures AddsNoAccept(s, VerifyDone(s, a))
  {
    hide EngineVerify, Complete;
    var hit := EngineVerify(s.tmpl, a.verify(0));
    CompleteAdds(s.Add(VerifyCall(0, s.tmpl, hit)).Add(VerifyReport(hit)), Done);
  }

  lemma FrameKeptAdds(s: Dev, st: nat, blob: Option<seq<u8>>)
    requires s.Buffers()
    ensures AddsNoAccept(s, FrameKept(s, st, blob))
  {
    hide StartScan, Complete;
    var s' := s.(enrollDone := s.enrollDone + 1).Add(Progress(s.enrollDone + 1, false));
    StartScanAdds(s');
    CompleteAdds(s'.Add(Commit(blob)), if blob.None? then Failed else Template(blob.value));
  }

  lemma EnrollAdds(s: Dev, a: Answers)
    requires s.Buffers()
    ensures AddsNoAccept(s, EnrollStep(s, a))
  {
    hide StartScan, FrameKept, UpdateStatus;
    var s' := s.Add(Update(UpdateStatus(a)));
    StartScanAdds(s'.Add(Progress(s.enrollDone, true)));
    FrameKeptAdds(s', UpdateStatus(a), a.commit);
  }

  /** The only accept of a completed scan is the very next act, for its own frame, and only if the scan is ok. */
  predicate OneAccept(s: Dev, r: Dev)
    requires s.Buffers()
  {
    && s.log <= r.log
    && forall i :: |s.log| <= i < |r.log| && r.log[i].Accept? ==>
         i == |s.log| && s.scanOk && s.engineOk && r.log[i].frame == s.frame[..s.size]
  }

  lemma ScanDoneAdds(s: Dev, a: Answers)
    requires s.Buffers()
    ensures OneAccept(s, ScanDone(s, a))
  {
    hide Retry, Complete, IdentifyDone, VerifyDone, EnrollStep;
    if !s.scanOk {
      RetryAdds(s);
    } else if !s.engineOk {
      CompleteAdds(s, Failed);
    } else {
      var s' := s.Add(Accept(s.frame[..s.size], Purpose(s.Kind()), a.accept));
      RetryAdds(s');
      if a.accept == 0 {
        match s.Kind()
        case Identify => IdentifyAdds(s', a);
        case Verify => VerifyAdds(s', a);
        case Enroll => EnrollAdds(s', a);
      }
    }
  }

  // ---- one step ----

  /** What a legacy scan's step may hand to the engine: the frame it captured, processed, after a lift. */
  predicate FreshAccepts(s: Dev, o: nat, r: Dev) {
    && s.log <= r.log
    && forall i :: |s.log| <= i < |r.log| && r.log[i].Accept? ==>
         && i == o + 5 && r.log[o + 4] == LiftSeen && r.log[o + 3].Captured? && |r.log[o + 3].frame| == s.size
         && r.log[o + 2] == FingerSeen && r.log[o + 1].Background? && r.log[o] == ScanStart
         && (r.log[o + 1].stored.Some? ==> |r.log[o + 1].stored.value| == s.size)
         && r.log[i].frame == Processed(s.useFpn, r.log[o + 1].stored, r.log[o + 3].frame)
  }

  lemma EnterStands(s: Dev, o: nat, st: nat)
    requires s.Buffers() && LEGACY <= st < NUM_STATES && st != SUBMIT && Standing(s, o, st)
    ensures InLegacy(Enter(s, st), o) && Enter(s, st).log == s.log
  {
  }

  /** State SCAN_SUBMIT processes the frame that was just read, or gives the scan up. */
  lemma SubmitStands(s: Dev, o: nat)
    requires s.Buffers() && o < |s.log| && s.log[o] == ScanStart
    requires var acts := s.log[o + 1..];
             && |acts| >= 2 && acts[0].Background? && Knows(s, acts[0].stored) && acts[1] == FingerSeen
             && if |acts| == 2 then s.frame[s.size] == 0 && s.frame[s.size + 1] == 0
                else |acts| == 3 && acts[2] == Captured(s.frame[..s.size])
    ensures InLegacy(Enter(s, SUBMIT), o) && Enter(s, SUBMIT).log == s.log
  {
    hide Stretch, Fpn;
  }

  lemma BackgroundStands(s: Dev, o: nat, data: seq<u8>)
    requires InLegacy(s, o) && s.phase.state == BG_READ
    ensures var r := CaptureBackground(s, data); InLegacy(r, o) && AddsNoAccept(s, r)
    ensures var r := DropBackground(s); InLegacy(r, o) && AddsNoAccept(s, r)
  {
    hide Enter;
    var d := s.(hasBackground := false).Add(Background(None));
    assert d.log[o + 1..] == [Background(None)];
    EnterStands(d, o, BG_READ + 1);
    if |data| >= s.size + 2 {
      var b := data[2..s.size + 2];
      var t := s.(background := b, hasBackground := true).Add(Background(Some(b)));
      assert t.log[o + 1..] == [Background(Some(b))];
      EnterStands(t, o, BG_READ + 1);
    }
  }

  lemma ImageStands(s: Dev, o: nat, data: seq<u8>)
    requires InLegacy(s, o) && s.phase.state == READ_IMAGE
    ensures var r := CaptureLegacy(s, data); InLegacy(r, o) && AddsNoAccept(s, r)
  {
    hide Enter;
    var acts := s.log[o + 1..];
    if |data| >= s.size + 2 {
      var c := data[2..s.size + 2];
      var t := s.(frame := c + data[..2]).Add(Captured(c));
      assert t.log[o + 1..] == acts + [Captured(c)] && t.frame[..s.size] == c;
      SubmitStands(t, o);
    } else {
      SubmitStands(s.(frame := s.frame[..s.size] + [0, 0]), o);
    }
  }

  /** The finger is lifted: the scan is over. */
  lemma LiftFresh(s: Dev, o: nat, a: Answers)
    requires InLegacy(s, o) && s.phase.state == LEGACY_WAIT_LIFT
    ensures var r := ScanDone(s.Add(LiftSeen), a); Left(r) && FreshAccepts(s, o, r)
  {
    hide ScanDone, Processed;
    var t := s.Add(LiftSeen);
    ScanDoneQuiet(t, a);
    ScanDoneAdds(t, a);
    assert s.log[o + 1..] == s.log[o + 1..|s.log|];
  }

  lemma FingerStands(s: Dev, o: nat)
    requires InLegacy(s, o) && s.phase.state == LEGACY_WAIT_FINGER
    ensures var r := Enter(s.Add(FingerSeen), LEGACY_WAIT_FINGER + 1); InLegacy(r, o) && AddsNoAccept(s, r)
  {
    hide Enter;
    var t := s.Add(FingerSeen);
    assert t.log[o + 1..] == s.log[o + 1..] + [FingerSeen];
    EnterStands(t, o, LEGACY_WAIT_FINGER + 1);
  }

  /** r is one step on from s, in the legacy scan or out of it. */
  predicate Goes(s: Dev, o: nat, r: Dev) { (InLegacy(r, o) || Left(r)) && FreshAccepts(s, o, r) }

  lemma GoesOn(s: Dev, o: nat, r: Dev)
    requires (InLegacy(r, o) || Left(r)) && AddsNoAccept(s, r)
    ensures Goes(s, o, r)
  {
  }

  /** A transfer that is neither the background, the frame, nor a poll that ends. */
  lemma OtherGoes(s: Dev, o: nat, next: nat)
    requires InLegacy(s, o)
    requires var st := s.phase.state;
             next == (if st == LEGACY_WAIT_FINGER || st == LEGACY_WAIT_LIFT then st - 1 else st + 1)
             && st != BG_READ && st != READ_IMAGE
    ensures Goes(s, o, Enter(s, next))
  {
    hide Enter, InLegacy, FreshAccepts, Left, Goes, Standing;
    LegacyState(s, o);
    SameStanding(s, o, next);
    EnterStands(s, o, next);
    GoesOn(s, o, Enter(s, next));
  }

  lemma PollGoes(s: Dev, o: nat, data: seq<u8>, a: Answers)
    requires InLegacy(s, o) && (s.phase.state == LEGACY_WAIT_FINGER || s.phase.state == LEGACY_WAIT_LIFT)
    ensures Goes(s, o, React(s, s.phase.state, data, a))
  {
    hide Enter, ScanDone, Byte0, InLegacy, FreshAccepts, Left, Goes, Standing;
    LegacyState(s, o);
    var st := s.phase.state;
    if st == LEGACY_WAIT_FINGER && Byte0(data) == 0xa0 {
      FingerStands(s, o);
      GoesOn(s, o, Enter(s.Add(FingerSeen), st + 1));
    } else if st == LEGACY_WAIT_LIFT && Byte0(data) != 0xa0 {
      LiftFresh(s, o, a);
      Ended(s, o, ScanDone(s.Add(LiftSeen), a));
    } else {
      OtherGoes(s, o, st - 1);
    }
  }

  lemma ReactGoes(s: Dev, o: nat, data: seq<u8>, a: Answers)
    requires InLegacy(s, o) && Waiting(s)
    ensures Goes(s, o, React(s, s.phase.state, data, a))
  {
    hide Enter, ScanDone, CaptureBackground, CaptureLegacy, Byte0, InLegacy, FreshAccepts, Left, Goes, Standing;
    LegacyState(s, o);
    var st := s.phase.state;
    if st == BG_READ {
      BackgroundStands(s, o, data);
      GoesOn(s, o, CaptureBackground(s, data));
    } else if st == READ_IMAGE {
      ImageStands(s, o, data);
      GoesOn(s, o, CaptureLegacy(s, data));
    } else if st == LEGACY_WAIT_FINGER || st == LEGACY_WAIT_LIFT {
      PollGoes(s, o, data, a);
    } else {
      OtherGoes(s, o, st + 1);
    }
  }

  lemma Ended(s: Dev, o: nat, r: Dev)
    requires Left(r) && FreshAccepts(s, o, r)
    ensures Goes(s, o, r)
  {
  }

  lemma LegacyState(s: Dev, o: nat)
    requires InLegacy(s, o)
    ensures s.Buffers() && s.phase.Scanning? && LEGACY <= s.phase.state < NUM_STATES && s.phase.state != SUBMIT
    ensures Standing(s, o, s.phase.state)
  {
  }

  /** Moving on to a state that has logged the same. */
  lemma SameStanding(s: Dev, o: nat, next: nat)
    requires InLegacy(s, o)
    requires var st := s.phase.state;
             next == (if st == LEGACY_WAIT_FINGER || st == LEGACY_WAIT_LIFT then st - 1 else st + 1)
             && st != BG_READ && st != READ_IMAGE
    ensures LEGACY <= next < NUM_STATES && next != SUBMIT && Standing(s, o, next)
  {
    hide Passed, Knows;
  }

  lemma FailGoes(s: Dev, o: nat, retry: bool)
    requires InLegacy(s, o)
    ensures Goes(s, o, CompleteWithError(s.Add(ScanFailed), retry))
  {
    hide CompleteWithError, InLegacy;
    LegacyState(s, o);
    ErrorAdds(s.Add(ScanFailed), retry);
    assert Left(CompleteWithError(s.Add(ScanFailed), retry)) by { ErrorLeaves(s.Add(ScanFailed), retry); }
  }

  lemma ErrorLeaves(s: Dev, retry: bool)
    requires s.Buffers()
    ensures Left(CompleteWithError(s, retry))
  {
  }

  lemma StepGoes(s: Dev, o: nat, e: Event)
    requires InLegacy(s, o)
    ensures Goes(s, o, Step(s, e))
  {
    hide Enter, React, DropBackground, CompleteWithError, InLegacy, FreshAccepts, Left, Goes, Command;
    LegacyState(s, o);
    GoesOn(s, o, s);
    match e
    case BeginEnroll =>
    case BeginVerify(_) =>
    case BeginIdentify(_) =>
    case Tick => if !Waiting(s) { DelayGoes(s, o); }
    case TransferFailed(retry) =>
      if Waiting(s) {
        if s.phase.state == BG_READ {
          BackgroundStands(s, o, []);
          GoesOn(s, o, DropBackground(s));
        } else {
          FailGoes(s, o, retry);
        }
      }
    case Transferred(data, a) => if Waiting(s) { ReactGoes(s, o, data, a); }
  }

  lemma DelayGoes(s: Dev, o: nat)
    requires InLegacy(s, o) && !Waiting(s)
    ensures Goes(s, o, Enter(s, s.phase.state + 1))
  {
    hide Enter, InLegacy, Standing, Goes;
    LegacyState(s, o);
    OtherGoes(s, o, s.phase.state + 1);
  }

  // ---- the states of this sensor are not left again ----

  lemma EnrollLeft(s: Dev)
    requires s.Buffers()
    ensures Left(StartEnroll(s))
  {
    hide StartScan;
    var reset := s.(isVerify := false, isIdentify := false, enrollDone := 0, hasBackground := false);
    var e := reset.Add(OpStart(Enroll, []));
    StartLeft(if s.engineOk then e.Add(Begin) else e);
  }

  lemma VerifyLeft(s: Dev, stored: Print)
    requires Left(s) && s.phase.Idle?
    ensures Left(StartVerify(s, stored))
  {
    hide StartScan;
    var v := s.(isIdentify := false).Add(OpStart(Verify, [stored]));
    if stored.Some? { StartLeft(v.(tmpl := stored.value, isVerify := true, hasBackground := false)); }
  }

  lemma IdentifyLeft(s: Dev, prints: seq<Print>)
    requires s.Buffers()
    ensures Left(StartIdentify(s, prints))
  {
    hide StartScan;
    var i := s.(isVerify := false, isIdentify := true, hasBackground := false, gallery := prints);
    StartLeft(i.Add(OpStart(Identify, prints)));
  }

  lemma StartLeft(s: Dev)
    requires s.Buffers()
    ensures Left(StartScan(s))
  {
  }

  lemma EnterLeft(s: Dev, st: nat)
    requires s.Buffers() && st < LEGACY
    ensures Left(Enter(s, st))
  {
  }

  lemma CaptureLeft(s: Dev, data: seq<u8>)
    requires s.Buffers()
    ensures Left(Capture(s, data))
  {
    hide Enter, CompleteWithError;
    ErrorLeaves(s.Add(ScanFailed), false);
    if |data| >= s.size {
      var t := s.(frame := data[..s.size] + s.frame[s.size..], scanOk := true);
      EnterLeft(t.Add(Captured(data[..s.size])), LIFT_DELAY);
    }
  }

  lemma ReactLeft(s: Dev, data: seq<u8>, a: Answers)
    requires Left(s) && Waiting(s)
    ensures Left(React(s, s.phase.state, data, a))
  {
    hide Enter, ScanDone, Capture, CaptureBackground, CaptureLegacy, Byte0;
    var st := s.phase.state;
    if st == CAPTURE_READ {
      CaptureLeft(s, data);
    } else if st == WAIT_LIFT {
      ScanDoneQuiet(s.Add(LiftSeen), a);
      EnterLeft(s, LIFT_DELAY);
    } else {
      EnterLeft(s, WAIT_DELAY);
      EnterLeft(s, st + 1);
      EnterLeft(s.Add(FingerSeen), st + 1);
    }
  }

  lemma StepLeft(s: Dev, e: Event)
    requires Left(s)
    ensures Left(Step(s, e))
  {
    hide Enter, React, StartEnroll, StartVerify, StartIdentify, CompleteWithError;
    match e
    case BeginEnroll => EnrollLeft(s);
    case BeginVerify(stored) => if s.phase.Idle? { VerifyLeft(s, stored); }
    case BeginIdentify(prints) => IdentifyLeft(s, prints);
    case Tick => if s.phase.Scanning? && !Waiting(s) { EnterLeft(s, s.phase.state + 1); }
    case TransferFailed(retry) => ErrorLeaves(s.Add(ScanFailed), retry);
    case Transferred(data, a) => if Waiting(s) { ReactLeft(s, data, a); }
  }

  lemma {:induction false} RunGoes(s: Dev, o: nat, events: seq<Event>)
    requires InLegacy(s, o) || Left(s)
    ensures InLegacy(RunFrom(s, events), o) || Left(RunFrom(s, events))
    decreases events
  {
    hide Step, InLegacy, Left, FreshAccepts;
    if events != [] {
      if InLegacy(s, o) { StepGoes(s, o, events[0]); } else { StepLeft(s, events[0]); }
      assert Step(s, events[0]).Buffers() by { Kept(s, o, events[0]); }
      RunGoes(Step(s, events[0]), o, events[1..]);
    }
  }

  lemma Kept(s: Dev, o: nat, e: Event)
    requires InLegacy(s, o) || Left(s)
    ensures s.Buffers() && Step(s, e).Buffers()
  {
    hide Step, Standing;
  }

  /** Over any run of a scan that starts in the legacy states: every frame such a scan hands to the engine is the
      stretched frame of a whole read made in that very scan, corrected by the background read in it, between a
      finger-present poll and a lift. */
  lemma LegacyFrameIsFresh(s: Dev, events: seq<Event>, e: Event)
    requires s.Buffers()
    requires RunFrom(LegacyScan(s), events).phase.Scanning? && RunFrom(LegacyScan(s), events).phase.state >= LEGACY
    ensures var t := RunFrom(LegacyScan(s), events); t.Buffers() && FreshAccepts(t, |s.log|, Step(t, e))
  {
    hide RunFrom, Step, FreshAccepts, Standing;
    assert InLegacy(LegacyScan(s), |s.log|) by { LegacyStarts(s); }
    RunGoes(LegacyScan(s), |s.log|, events);
    StepGoes(RunFrom(LegacyScan(s), events), |s.log|, e);
  }

  lemma LegacyStarts(s: Dev)
    requires s.Buffers()
    ensures InLegacy(LegacyScan(s), |s.log|)
  {
    hide Enter;
    var t := s.Add(ScanStart);
    assert t.log[|s.log| + 1..] == [];
    EnterStands(t, |s.log|, LEGACY);
  }
}
