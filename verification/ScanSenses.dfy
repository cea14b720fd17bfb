/** What the driver learns from its sensor, told from the events alone: which event makes it log what, and, over whole
    runs, from which transfers a frame given to the engine comes. */
module ScanSenses {
  import opened Bytes
  import opened Pixels
  import opened ScanSpec
  import opened ScanTheory
  import opened ScanLaws
  import opened ScanWire

  // ---- sensing ----

  /** The delay states; in all others of a scan a transfer is under way. */
  predicate Pausing(st: nat) {
    st == 0 || st == 13 || st == 16 || st == 20 || st == 22 || st == 24 || st == 28 || st == 29
  }

  predicate Awaiting(s: Dev) { s.phase.Scanning? && s.phase.state < NUM_STATES && !Pausing(s.phase.state) }

  /** What a completed transfer tells in state st, in a device with frames of n bytes. An empty transfer leaves a zeroed
      buffer. */
  function Tells(st: nat, n: nat, data: seq<u8>): seq<Act> {
    var first := if data == [] then 0 else data[0];
    if st == WAIT_FINGER then if first == 1 then [FingerSeen] else []
    else if st == CAPTURE_READ then if |data| >= n then [Captured(data[..n])] else [ScanFailed]
    else if st == WAIT_LIFT then if first == 0 then [LiftSeen] else []
    else if st == BG_READ then [Background(if |data| >= n + 2 then Some(data[2..n + 2]) else None)]
    else if st == LEGACY_WAIT_FINGER then if first == 0xa0 then [FingerSeen] else []
    else if st == READ_IMAGE then if |data| >= n + 2 then [Captured(data[2..n + 2])] else []
    else if st == LEGACY_WAIT_LIFT then if first != 0xa0 then [LiftSeen] else []
    else []
  }

  /** What an event tells: an operation begun, a finger, a frame, a lift, a failure, or nothing. */
  function Sensed(s: Dev, e: Event): seq<Act> {
    match e
    case BeginEnroll => if s.phase.Idle? then [OpStart(Enroll, [])] else []
    case BeginVerify(stored) => if s.phase.Idle? then [OpStart(Verify, [stored])] else []
    case BeginIdentify(prints) => if s.phase.Idle? then [OpStart(Identify, prints)] else []
    case Tick => []
    case TransferFailed(_) =>
      if !Awaiting(s) then [] else if s.phase.state == BG_READ then [Background(None)] else [ScanFailed]
    case Transferred(data, _) => if Awaiting(s) then Tells(s.phase.state, s.size, data) else []
  }

  /** Acts that only an event tells. */
  predicate Sense(a: Act) {
    a.OpStart? || a.FingerSeen? || a.Captured? || a.LiftSeen? || a.ScanFailed? || a.Background?
  }

  predicate AnsweredBy(a: Act, ans: Answers) {
    match a
    case Accept(_, _, hr) => hr == ans.accept
    case Update(st) => st == UpdateStatus(ans)
    case Commit(blob) => blob == ans.commit
    case VerifyCall(k, t, hit) => hit == EngineVerify(t, ans.verify(k))
    case _ => true
  }

  /** An act of the driver's own, or an engine call answered so. */
  predicate Own(a: Act, ans: Answers) { !Sense(a) && AnsweredBy(a, ans) }

  lemma OwnIs(a: Act, ans: Answers)
    requires Own(a, ans)
    ensures !Sense(a) && AnsweredBy(a, ans)
  {
  }

  lemma SensedAre(s: Dev, e: Event, a: Act, ans: Answers)
    ensures |Sensed(s, e)| <= 1
    ensures a in Sensed(s, e) ==> Sense(a) && AnsweredBy(a, ans)
  {
  }

  // ---- what else a step logs is the driver's own ----

  /** r extends the log of s by the driver's own acts. */
  predicate Adds(s: Dev, r: Dev, ans: Answers) {
    s.log <= r.log && forall i :: |s.log| <= i < |r.log| ==> Own(r.log[i], ans)
  }

  lemma EnterAdds(s: Dev, st: nat, ans: Answers)
    requires s.Buffers()
    ensures Adds(s, Enter(s, st), ans)
  {
    hide Stretch, Fpn;
  }

  lemma StartScanAdds(s: Dev, ans: Answers)
    requires s.Buffers()
    ensures Adds(s, StartScan(s), ans)
  {
    hide Enter;
    EnterAdds(s.Add(ScanStart), WAIT_DELAY, ans);
  }

  lemma CompleteAdds(s: Dev, r: Result, ans: Answers)
    ensures Adds(s, Complete(s, r), ans)
  {
  }

  lemma RetryAdds(s: Dev, ans: Answers)
    requires s.Buffers()
    ensures Adds(s, Retry(s), ans)
  {
    hide StartScan, Complete;
    StartScanAdds(s, ans);
    StartScanAdds(s.Add(Progress(s.enrollDone, true)), ans);
    CompleteAdds(s.Add(IdentifyRetry), Done, ans);
  }

  lemma ErrorAdds(s: Dev, retry: bool, ans: Answers)
    ensures Adds(s, CompleteWithError(s, retry), ans)
  {
    hide Complete;
    CompleteAdds(s, Failed, ans);
    CompleteAdds(s.Add(IdentifyRetry), Done, ans);
  }

  lemma {:induction false} SearchAnswered(gallery: seq<Print>, i: nat, ans: Answers)
    ensures forall a :: a in Search(gallery, ans.verify, i).1 ==> Own(a, ans)
    decreases |gallery| - i
  {
    hide EngineVerify, UpdateStatus;
    if i < |gallery| { SearchAnswered(gallery, i + 1, ans); }
  }

  lemma AddCalls(s: Dev, calls: seq<Act>, ans: Answers)
    requires forall a :: a in calls ==> Own(a, ans)
    ensures Adds(s, s.(log := s.log + calls), ans)
  {
    hide Own;
    var log := s.log + calls;
    forall i | |s.log| <= i < |log| ensures Own(log[i], ans) { assert log[i] in calls; }
  }

  lemma IdentifyAdds(s: Dev, ans: Answers)
    ensures Adds(s, IdentifyDone(s, ans), ans)
  {
    hide Search, Complete, Own, Adds;
    SearchAnswered(s.gallery, 0, ans);
    var (r, calls) := Search(s.gallery, ans.verify, 0);
    var s' := s.(log := s.log + calls);
    AddCalls(s, calls, ans);
    Finishes(s', Failed, ans);
    Finishes(s', Done, ans);
    AddsThen(s, s', IdentifyDone(s, ans), ans);
  }

  lemma AddsThen(s: Dev, t: Dev, r: Dev, ans: Answers)
    requires Adds(s, t, ans) && Adds(t, r, ans)
    ensures Adds(s, r, ans)
  {
    hide Own;
  }

  /** However a search is reported. */
  lemma Finishes(s: Dev, result: Result, ans: Answers)
    ensures Adds(s, Complete(s, result), ans)
    ensures forall found :: Adds(s, Complete(s.Add(IdentifyReport(found)), result), ans)
  {
  }

  lemma VerifyAdds(s: Dev, ans: Answers)
    ensures Adds(s, VerifyDone(s, ans), ans)
  {
    hide EngineVerify, Complete;
    var hit := EngineVerify(s.tmpl, ans.verify(0));
    CompleteAdds(s.Add(VerifyCall(0, s.tmpl, hit)).Add(VerifyReport(hit)), Done, ans);
  }

  lemma FrameKeptAdds(s: Dev, st: nat, ans: Answers)
    requires s.Buffers()
    ensures Adds(s, FrameKept(s, st, ans.commit), ans)
  {
    hide StartScan, Complete;
    var s' := s.(enrollDone := s.enrollDone + 1).Add(Progress(s.enrollDone + 1, false));
    StartScanAdds(s', ans);
    CompleteAdds(s'.Add(Commit(ans.commit)), if ans.commit.None? then Failed else Template(ans.commit.value), ans);
  }

  lemma EnrollAdds(s: Dev, ans: Answers)
    requires s.Buffers()
    ensures Adds(s, EnrollStep(s, ans), ans)
  {
    hide StartScan, FrameKept, UpdateStatus;
    var s' := s.Add(Update(UpdateStatus(ans)));
    StartScanAdds(s'.Add(Progress(s.enrollDone, true)), ans);
    FrameKeptAdds(s', UpdateStatus(ans), ans);
  }

  lemma ScanDoneAdds(s: Dev, ans: Answers)
    requires s.Buffers()
    ensures Adds(s, ScanDone(s, ans), ans)
  {
    hide Retry, Complete, IdentifyDone, VerifyDone, EnrollStep;
    RetryAdds(s, ans);
    CompleteAdds(s, Failed, ans);
    var s' := s.Add(Accept(s.frame[..s.size], Purpose(s.Kind()), ans.accept));
    RetryAdds(s', ans);
    IdentifyAdds(s', ans);
    VerifyAdds(s', ans);
    EnrollAdds(s', ans);
  }

  lemma CaptureAdds(s: Dev, data: seq<u8>, ans: Answers)
    requires s.Buffers()
    ensures Adds(s.(log := s.log + Tells(CAPTURE_READ, s.size, data)), Capture(s, data), ans)
  {
    hide Enter, CompleteWithError, Own;
    if |data| < s.size {
      ErrorAdds(s.Add(ScanFailed), false, ans);
    } else {
      var t := s.(frame := data[..s.size] + s.frame[s.size..], scanOk := true).Add(Captured(data[..s.size]));
      EnterAdds(t, LIFT_DELAY, ans);
    }
  }

  lemma DropAdds(s: Dev, ans: Answers)
    requires s.Buffers()
    ensures Adds(s.Add(Background(None)), DropBackground(s), ans)
  {
    hide Enter, Own;
    EnterAdds(s.(hasBackground := false).Add(Background(None)), BG_READ + 1, ans);
  }

  lemma BackgroundAdds(s: Dev, data: seq<u8>, ans: Answers)
    requires s.Buffers()
    ensures Adds(s.(log := s.log + Tells(BG_READ, s.size, data)), CaptureBackground(s, data), ans)
  {
    hide Enter, DropBackground, Own;
    if |data| >= s.size + 2 {
      var b := data[2..s.size + 2];
      EnterAdds(s.(background := b, hasBackground := true).Add(Background(Some(b))), BG_READ + 1, ans);
    } else {
      DropAdds(s, ans);
    }
  }

  lemma LegacyAdds(s: Dev, data: seq<u8>, ans: Answers)
    requires s.Buffers()
    ensures Adds(s.(log := s.log + Tells(READ_IMAGE, s.size, data)), CaptureLegacy(s, data), ans)
  {
    hide Enter, Own;
    if |data| >= s.size + 2 {
      var c := data[2..s.size + 2];
      EnterAdds(s.(frame := c + data[..2]).Add(Captured(c)), SUBMIT, ans);
    } else {
      EnterAdds(s.(frame := s.frame[..s.size] + [0, 0]), SUBMIT, ans);
    }
  }

  /** A poll: moving on with what was seen, or back to the delay. */
  lemma PollAdds(s: Dev, st: nat, data: seq<u8>, ans: Answers)
    requires s.Buffers() && (st == WAIT_FINGER || st == WAIT_LIFT || st == LEGACY_WAIT_FINGER || st == LEGACY_WAIT_LIFT)
    ensures Adds(s.(log := s.log + Tells(st, s.size, data)), React(s, st, data, ans), ans)
  {
    hide Enter, ScanDone, Capture, CaptureBackground, CaptureLegacy, Own;
    EnterAdds(s.Add(FingerSeen), st + 1, ans);
    ScanDoneAdds(s.Add(LiftSeen), ans);
    EnterAdds(s, WAIT_DELAY, ans);
    EnterAdds(s, LIFT_DELAY, ans);
    EnterAdds(s, LEGACY_WAIT_DELAY, ans);
    EnterAdds(s, LEGACY_LIFT_DELAY, ans);
    assert s.(log := s.log + []) == s;
  }

  lemma ReactAdds(s: Dev, st: nat, data: seq<u8>, ans: Answers)
    requires s.Buffers()
    ensures Adds(s.(log := s.log + Tells(st, s.size, data)), React(s, st, data, ans), ans)
  {
    hide Enter, ScanDone, Capture, CaptureBackground, CaptureLegacy, Own, Adds;
    if st == WAIT_FINGER || st == WAIT_LIFT || st == LEGACY_WAIT_FINGER || st == LEGACY_WAIT_LIFT {
      PollAdds(s, st, data, ans);
    } else {
      CaptureAdds(s, data, ans);
      BackgroundAdds(s, data, ans);
      LegacyAdds(s, data, ans);
      EnterAdds(s, st + 1, ans);
      assert s.(log := s.log + []) == s;
    }
  }

  lemma StartEnrollAdds(s: Dev, ans: Answers)
    requires s.Buffers()
    ensures Adds(s.Add(OpStart(Enroll, [])), StartEnroll(s), ans)
  {
    hide StartScan;
    var reset := s.(isVerify := false, isIdentify := false, enrollDone := 0, hasBackground := false);
    var t := reset.Add(OpStart(Enroll, []));
    StartScanAdds(if s.engineOk then t.Add(Begin) else t, ans);
  }

  lemma StartVerifyAdds(s: Dev, stored: Print, ans: Answers)
    requires s.Buffers()
    ensures Adds(s.Add(OpStart(Verify, [stored])), StartVerify(s, stored), ans)
  {
    hide StartScan;
    if stored.Some? {
      var t := s.(isIdentify := false).Add(OpStart(Verify, [stored]));
      StartScanAdds(t.(tmpl := stored.value, isVerify := true, hasBackground := false), ans);
    }
  }

  lemma StartIdentifyAdds(s: Dev, prints: seq<Print>, ans: Answers)
    requires s.Buffers()
    ensures Adds(s.Add(OpStart(Identify, prints)), StartIdentify(s, prints), ans)
  {
    hide StartScan;
    var t := s.(isVerify := false, isIdentify := true, hasBackground := false, gallery := prints);
    StartScanAdds(t.Add(OpStart(Identify, prints)), ans);
  }

  lemma AwaitingIs(s: Dev)
    ensures Awaiting(s) <==> Waiting(s)
  {
  }

  /** What a step logs is what its event tells, and behind it the driver's own acts, with the engine's answers as given:
      a finger exactly in state WAIT_FINGER for a transfer that starts with 1, a lift exactly in state WAIT_LIFT for one
      that starts with 0 or is empty, a frame exactly in state CAPTURE_READ for a transfer of at least its size. */
  lemma StepAdds(s: Dev, e: Event, ans: Answers)
    requires s.Buffers() && (e.Transferred? ==> ans == e.answers)
    ensures Adds(s.(log := s.log + Sensed(s, e)), Step(s, e), ans)
  {
    hide Enter, React, DropBackground, StartEnroll, StartVerify, StartIdentify, CompleteWithError, Tells, Own, Pausing;
    AwaitingIs(s);
    assert s.(log := s.log + []) == s;
    match e
    case BeginEnroll => StartEnrollAdds(s, ans);
    case BeginVerify(stored) => StartVerifyAdds(s, stored, ans);
    case BeginIdentify(prints) => StartIdentifyAdds(s, prints, ans);
    case Tick => if s.phase.Scanning? { EnterAdds(s, s.phase.state + 1, ans); }
    case TransferFailed(retry) =>
      DropAdds(s, ans);
      ErrorAdds(s.Add(ScanFailed), retry, ans);
    case Transferred(data, _) => if s.phase.Scanning? { ReactAdds(s, s.phase.state, data, ans); }
  }

  /** Where a scan of this sensor goes. A delay leads on; a poll that sees nothing leads back to its delay; a whole
      frame leads to the wait for the lift; a short frame or a failed transfer ends the operation; and a lift ends the
      scan. */
  lemma StepMoves(s: Dev, e: Event)
    requires s.Buffers() && s.phase.Scanning? && s.phase.state < LEGACY
    ensures var st, p := s.phase.state, Step(s, e).phase;
            match e
            case Tick => p == Scanning(if st == 0 then 1 else if st == 13 then 14 else st)
            case TransferFailed(_) => p == if st == 0 || st == 13 then s.phase else Idle
            case Transferred(data, _) =>
              if st == 0 || st == 13 then p == s.phase
              else if st == 1 then p == Scanning(if data != [] && data[0] == 1 then 2 else 0)
              else if st < 12 then p == Scanning(st + 1)
              else if st == 12 then p == if |data| >= s.size then Scanning(13) else Idle
              else if data != [] && data[0] != 0 then p == Scanning(13)
              else p == Idle || p == Scanning(0)
            case _ => p == s.phase
  {
    hide ScanDone, CompleteWithError, React, Enter, Command;
    AwaitingIs(s);
    match e
    case TransferFailed(retry) => ErrorEnds(s.Add(ScanFailed), retry);
    case Transferred(data, a) => if Awaiting(s) { ReactMoves(s, s.phase.state, data, a); }
    case Tick => EnterMoves(s, s.phase.state + 1);
    case _ =>
  }

  lemma EnterMoves(s: Dev, st: nat)
    requires s.Buffers() && st != SUBMIT
    ensures Enter(s, st).phase == Scanning(st)
  {
  }

  lemma ReactMoves(s: Dev, st: nat, data: seq<u8>, a: Answers)
    requires s.Buffers() && 0 < st < LEGACY && st != LIFT_DELAY
    ensures var p := React(s, st, data, a).phase;
            if st == 1 then p == Scanning(if data != [] && data[0] == 1 then 2 else 0)
            else if st < 12 then p == Scanning(st + 1)
            else if st == 12 then p == if |data| >= s.size then Scanning(13) else Idle
            else if data != [] && data[0] != 0 then p == Scanning(13)
            else p == Idle || p == Scanning(0)
  {
    hide ScanDone, CompleteWithError, Enter, CaptureBackground, CaptureLegacy;
    EnterMoves(s.Add(FingerSeen), st + 1);
    EnterMoves(s, st + 1);
    EnterMoves(s, WAIT_DELAY);
    EnterMoves(s, LIFT_DELAY);
    if st == CAPTURE_READ {
      ErrorEnds(s.Add(ScanFailed), false);
      if |data| >= s.size {
        var t := s.(frame := data[..s.size] + s.frame[s.size..], scanOk := true);
        EnterMoves(t.Add(Captured(data[..s.size])), LIFT_DELAY);
      }
    }
    if st == WAIT_LIFT { ScanDoneQuiet(s.Add(LiftSeen), a); }
  }

  /** What an operation that a transfer has failed ends with: in an identification a retry error is reported as such. */
  lemma ErrorEnds(s: Dev, retry: bool)
    ensures var r := CompleteWithError(s, retry);
            && r.phase == Idle
            && r.log == s.log + if s.isIdentify && retry then [IdentifyRetry, OpComplete(Identify, Done)]
                                else [OpComplete(s.Kind(), Failed)]
  {
    assert forall x: Act, y: Act :: s.log + [x] + [y] == s.log + [x, y];
  }

  // ---- over whole runs ----

  /** The device after the first k events. */
  function After(s: Dev, events: seq<Event>, k: nat): (r: Dev)
    requires s.Buffers() && k <= |events|
    ensures r.Continues(s)
    decreases k
  {
    hide Step;
    if k == 0 then s else Step(After(s, events, k - 1), events[k - 1])
  }

  lemma {:induction false} AfterCons(s: Dev, events: seq<Event>, k: nat)
    requires s.Buffers() && events != [] && k < |events|
    ensures After(s, events, k + 1) == After(Step(s, events[0]), events[1..], k)
  {
    hide Step;
    if k > 0 { AfterCons(s, events, k - 1); }
  }

  lemma {:induction false} AfterAll(s: Dev, events: seq<Event>)
    requires s.Buffers()
    ensures RunFrom(s, events) == After(s, events, |events|)
    decreases events
  {
    hide Step;
    if events != [] {
      AfterAll(Step(s, events[0]), events[1..]);
      AfterCons(s, events, |events| - 1);
    }
  }

  lemma {:induction false} AfterOk(s: Dev, events: seq<Event>, k: nat)
    requires s.Buffers() && Inv(s) && k <= |events|
    ensures Inv(After(s, events, k))
  {
    hide Step, Inv;
    if k > 0 {
      AfterOk(s, events, k - 1);
      StepOk(After(s, events, k - 1), events[k - 1]);
    }
  }

  /** Any answers; only a completed transfer brings some that matter. */
  function AnswersOf(e: Event): Answers {
    if e.Transferred? then e.answers else Answers(0, 0, 0, 0, None, _ => false)
  }

  /** Logs only grow. */
  lemma {:induction false} Grows(s: Dev, events: seq<Event>, k: nat, m: nat)
    requires s.Buffers() && k <= m <= |events|
    ensures After(s, events, k).log <= After(s, events, m).log
    decreases m
  {
    hide Step, Own, Sensed;
    if k < m {
      var t, e := After(s, events, m - 1), events[m - 1];
      Grows(s, events, k, m - 1);
      StepAdds(t, e, AnswersOf(e));
      assert t.log <= t.log + Sensed(t, e);
    }
  }

  /** Act i is logged by event k. */
  ghost predicate LoggedBy(s: Dev, events: seq<Event>, i: nat, k: nat)
    requires s.Buffers()
  {
    k < |events| && |After(s, events, k).log| <= i < |After(s, events, k + 1).log|
  }

  lemma {:induction false} Cause(s: Dev, events: seq<Event>, i: nat, m: nat) returns (k: nat)
    requires s.Buffers() && m <= |events| && |s.log| <= i < |After(s, events, m).log|
    ensures k < m && LoggedBy(s, events, i, k)
    decreases m
  {
    hide Step;
    if |After(s, events, m - 1).log| <= i { k := m - 1; } else { k := Cause(s, events, i, m - 1); }
  }

  /** What an event tells, it tells first, and it tells no more. */
  lemma SensedFirst(s: Dev, events: seq<Event>, i: nat, k: nat)
    requires s.Buffers() && LoggedBy(s, events, i, k) && i < |RunFrom(s, events).log|
    requires Sense(RunFrom(s, events).log[i])
    ensures var t := After(s, events, k); i == |t.log| && Sensed(t, events[k]) == [RunFrom(s, events).log[i]]
  {
    hide Step, Own, Sensed, Sense, RunFrom;
    var t, e, r := After(s, events, k), events[k], After(s, events, k + 1);
    AfterAll(s, events);
    Grows(s, events, k + 1, |events|);
    assert r.log[i] == RunFrom(s, events).log[i];
    StepAdds(t, e, AnswersOf(e));
    SensedAre(s, e, r.log[i], AnswersOf(e));
    SensedAre(t, e, r.log[i], AnswersOf(e));
    if i >= |t.log| + |Sensed(t, e)| {
      OwnIs(r.log[i], AnswersOf(e));
    } else {
      assert r.log[i] == (t.log + Sensed(t, e))[i];
    }
  }

  /** Event k is a poll that saw the finger, ... */
  ghost predicate SeesFinger(s: Dev, events: seq<Event>, k: nat)
    requires s.Buffers()
  {
    && k < |events| && After(s, events, k).phase == Scanning(WAIT_FINGER)
    && events[k].Transferred? && events[k].data != [] && events[k].data[0] == 1
  }

  /** ... a read of this frame, ... */
  ghost predicate ReadsFrame(s: Dev, events: seq<Event>, k: nat, frame: seq<u8>)
    requires s.Buffers()
  {
    && k < |events| && After(s, events, k).phase == Scanning(CAPTURE_READ)
    && events[k].Transferred? && |events[k].data| >= s.size && frame == events[k].data[..s.size]
  }

  /** ... a poll that saw the finger gone. */
  ghost predicate SeesLift(s: Dev, events: seq<Event>, k: nat)
    requires s.Buffers()
  {
    && k < |events| && After(s, events, k).phase == Scanning(WAIT_LIFT)
    && events[k].Transferred? && (events[k].data == [] || events[k].data[0] == 0)
  }

  /** A device that is opened, or opened again. */
  predicate Ready(s: Dev) { s.Buffers() && s.phase.Idle? && s.log == [] }

  /** The sense acts of a scan of this sensor come from the polls and the read that tell them. */
  lemma SenseIs(s: Dev, events: seq<Event>, i: nat, k: nat)
    requires Ready(s) && LoggedBy(s, events, i, k) && i < |RunFrom(s, events).log|
    ensures var t, a := After(s, events, k), RunFrom(s, events).log[i];
            && (a == FingerSeen ==> SeesFinger(s, events, k))
            && (a.Captured? ==> ReadsFrame(s, events, k, a.frame))
            && (a == LiftSeen ==> SeesLift(s, events, k))
            && (Sense(a) ==> i == |t.log|)
  {
    hide Step, RunFrom, Sense, Inv, LogOk;
    var a := RunFrom(s, events).log[i];
    assert a == FingerSeen || a.Captured? || a == LiftSeen ==> Sense(a) by { SensesAre(a); }
    if Sense(a) {
      SensedFirst(s, events, i, k);
      ReadyOk(s);
      AfterOk(s, events, k);
      BelowLegacy(After(s, events, k));
    }
  }

  lemma SensesAre(a: Act)
    ensures a == FingerSeen || a.Captured? || a == LiftSeen ==> Sense(a)
  {
  }

  lemma ReadyOk(s: Dev)
    requires Ready(s)
    ensures Inv(s)
  {
  }

  lemma BelowLegacy(s: Dev)
    requires Inv(s)
    ensures s.phase.Scanning? ==> s.phase.state < LEGACY
  {
    hide LogOk, Summary;
  }

  /** Causes come in the order of what they cause. */
  lemma CausesOrdered(s: Dev, events: seq<Event>, i: nat, k: nat, j: nat, m: nat)
    requires s.Buffers() && LoggedBy(s, events, i, k) && LoggedBy(s, events, j, m) && i <= j
    ensures k <= m
  {
    hide Step;
    if m < k { Grows(s, events, m + 1, k); }
  }

  /** An accept is logged by the event that tells the lift. */
  lemma AcceptAtLift(s: Dev, events: seq<Event>, i: nat, k: nat, m: nat)
    requires Ready(s) && 0 < i < |RunFrom(s, events).log| && RunFrom(s, events).log[i - 1] == LiftSeen
    requires LoggedBy(s, events, i - 1, k) && LoggedBy(s, events, i, m)
    ensures k == m
  {
    hide Step, RunFrom, Inv, LogOk, Summary;
    CausesOrdered(s, events, i - 1, k, i, m);
    if k < m {
      var r := After(s, events, k + 1);
      Grows(s, events, k + 1, m);
      ReadyOk(s);
      AfterOk(s, events, k + 1);
      BetweenEvents(r);
      AfterAll(s, events);
      Grows(s, events, k + 1, |events|);
      assert |r.log| == i && r.log[..i] == r.log && r.log[i - 1] == LiftSeen;
      SummaryStep(r.log, i);
    }
  }

  /** Every frame given to the engine was read whole by one transfer, after a poll that saw the finger and before the
      poll that saw it gone, upon which it was handed over. */
  lemma FrameFromSensor(s: Dev, events: seq<Event>, i: nat) returns (a: nat, b: nat, c: nat)
    requires Ready(s) && i < |RunFrom(s, events).log| && RunFrom(s, events).log[i].Accept?
    ensures a < b < c && SeesFinger(s, events, a) && ReadsFrame(s, events, b, RunFrom(s, events).log[i].frame)
    ensures SeesLift(s, events, c) && LoggedBy(s, events, i, c)
    ensures i >= 3 && LoggedBy(s, events, i - 3, a)
  {
    hide Step, RunFrom, Inv, LogOk, LoggedBy, SeesFinger, ReadsFrame, SeesLift, Summary;
    var log := RunFrom(s, events).log;
    assert log == After(s, events, |events|).log by { AfterAll(s, events); }
    RunLogOk(s, events);
    FrameIsFresh(SetupOf(s), log, i);
    a := Cause(s, events, i - 3, |events|);
    b := Cause(s, events, i - 2, |events|);
    c := Cause(s, events, i - 1, |events|);
    SenseIs(s, events, i - 3, a);
    SenseIs(s, events, i - 2, b);
    SenseIs(s, events, i - 1, c);
    var m := Cause(s, events, i, |events|);
    AcceptAtLift(s, events, i, c, m);
    CausesOrdered(s, events, i - 3, a, i - 2, b);
    CausesOrdered(s, events, i - 2, b, i - 1, c);
    Differ(s, events, a, b, c, log[i - 2].frame);
  }

  lemma Differ(s: Dev, events: seq<Event>, a: nat, b: nat, c: nat, frame: seq<u8>)
    requires s.Buffers() && SeesFinger(s, events, a) && ReadsFrame(s, events, b, frame) && SeesLift(s, events, c)
    ensures a != b && b != c && a != c
  {
    hide Step;
  }

  lemma RunLogOk(s: Dev, events: seq<Event>)
    requires Ready(s)
    ensures LogOk(SetupOf(s), RunFrom(s, events).log)
  {
    hide LogOk, RunFrom;
    ReadyOk(s);
    RunOk(s, events);
    AfterAll(s, events);
  }

  /** Between two frames given to the engine a poll saw the finger gone, and the second was read after a later poll had
      seen it again. */
  lemma LiftBetween(s: Dev, events: seq<Event>, i: nat, j: nat)
    returns (read: nat, lift: nat, finger: nat, again: nat)
    requires Ready(s) && i < j < |RunFrom(s, events).log|
    requires RunFrom(s, events).log[i].Accept? && RunFrom(s, events).log[j].Accept?
    ensures read < lift < finger < again
    ensures ReadsFrame(s, events, read, RunFrom(s, events).log[i].frame) && SeesLift(s, events, lift)
    ensures SeesFinger(s, events, finger) && ReadsFrame(s, events, again, RunFrom(s, events).log[j].frame)
  {
    hide Step, RunFrom, Inv, LogOk, LoggedBy, SeesFinger, ReadsFrame, SeesLift;
    var a, c';
    a, read, lift := FrameFromSensor(s, events, i);
    finger, again, c' := FrameFromSensor(s, events, j);
    RunLogOk(s, events);
    SeparatedByLift(SetupOf(s), RunFrom(s, events).log, i, j);
    CausesOrdered(s, events, i, lift, j - 3, finger);
    Differ(s, events, finger, again, lift, RunFrom(s, events).log[j].frame);
  }
}
