/** USB discipline of the scans of this sensor: arming, sized reads and no firmware traffic, over every run. */
module ScanWire {
  import opened Bytes
  import opened ScanSpec
  import opened Wire

  /** The transfers of one capture, in order: transfer m is submitted by state m + 1. */
  function Routine(n: nat): (r: seq<Usb>)
    ensures |r| == 12
  {
    [In(0x43, 0, 1),
     Out(0x34, 3, 0), Out(0x6f, 0x20, 0x9180), BulkIn(32),
     Out(0x34, 3, 0), Out(0x6f, 0, 0xff00),
     Out(0x34, 3, 0), Out(0x6f, 0x20, 0x9180), BulkIn(32),
     Out(0x34, 3, 0), Out(0x6f, 0x1400, 0x9080), BulkIn(n)]
  }

  /** Transfer i is number m of a capture that began at or after `from`: the m transfers before it are those of the
      routine before it. */
  predicate PlaceIs(n: nat, w: seq<Usb>, from: nat, i: nat, m: nat) {
    m < 12 && from + m <= i < |w| && w[i - m..i + 1] == Routine(n)[..m + 1]
  }

  ghost predicate HasPlace(n: nat, w: seq<Usb>, from: nat, i: nat) {
    exists m: nat :: PlaceIs(n, w, from, i, m)
  }

  /** Every transfer from `from` on has a place in the routine; polls are its number 0. */
  ghost predicate InRoutine(n: nat, w: seq<Usb>, from: nat) {
    from <= |w| && forall i :: from <= i < |w| ==> HasPlace(n, w, from, i)
  }

  /** The wire starts with `o`, what was sent before any scan; every transfer is in order and fits its neighbours.
      Between events a running scan is in a state of this sensor, and the last transfer is the one of that state. */
  ghost predicate WireInv(s: Dev, o: seq<Usb>) {
    && s.Buffers() && o <= s.wire && WireOk(s.size, s.wire) && InRoutine(s.size, s.wire, |o|)
    && (s.phase.Scanning? ==>
          && s.phase.state < LEGACY
          && (1 <= s.phase.state <= 12 ==>
                |s.wire| > 0 && PlaceIs(s.size, s.wire, |o|, |s.wire| - 1, s.phase.state - 1)))
  }

  /** A state in the middle of the routine may be entered when the part before it has just been sent. */
  predicate MayEnter(s: Dev, o: seq<Usb>, st: nat) {
    st < LEGACY && (2 <= st <= 12 ==> |s.wire| > 0 && PlaceIs(s.size, s.wire, |o|, |s.wire| - 1, st - 2))
  }

  /** Sending the next transfer of the routine, or a poll. */
  lemma NextInRoutine(n: nat, w: seq<Usb>, from: nat, m: nat)
    requires InRoutine(n, w, from) && m < 12 && (m > 0 ==> w != [] && PlaceIs(n, w, from, |w| - 1, m - 1))
    ensures var w' := w + [Routine(n)[m]]; InRoutine(n, w', from) && PlaceIs(n, w', from, |w|, m)
  {
    hide Routine;
    var w' := w + [Routine(n)[m]];
    assert PlaceIs(n, w', from, |w|, m) by {
      if m > 0 {
        var k := |w| - m;
        assert w'[k..|w| + 1] == w[k..|w|] + [Routine(n)[m]];
        assert Routine(n)[..m + 1] == Routine(n)[..m] + [Routine(n)[m]];
      }
    }
    forall i | from <= i < |w'| ensures HasPlace(n, w', from, i) {
      if i < |w| {
        assert HasPlace(n, w, from, i);
        var q: nat :| PlaceIs(n, w, from, i, q);
        assert w'[i - q..i + 1] == w[i - q..i + 1];
        assert PlaceIs(n, w', from, i, q);
      }
    }
  }

  /** The transfer a state submits is its own in the routine; waiting for the lift polls again. */
  lemma CommandInRoutine(st: nat, n: nat)
    requires st < LEGACY
    ensures 1 <= st <= 12 ==> Command(st, n) == Some(Routine(n)[st - 1])
    ensures st == WAIT_LIFT ==> Command(st, n) == Some(Routine(n)[0])
    ensures st == WAIT_DELAY || st == LIFT_DELAY ==> Command(st, n) == None
  {
  }

  lemma LastIs(n: nat, w: seq<Usb>, from: nat, m: nat)
    requires w != [] && PlaceIs(n, w, from, |w| - 1, m)
    ensures m < 12 && w[|w| - 1] == Routine(n)[m]
  {
    var i := |w| - 1;
    assert w[i] == w[i - m..i + 1][m];
  }

  /** What the routine guarantees about its neighbours. */
  lemma RoutineFits(n: nat, m: nat)
    requires m < 12
    ensures var r := Routine(n);
            && NoUpload(r[m])
            && (IsCommand(r[m]) ==> m > 0 && r[m - 1] == ARM)
            && (r[m].BulkIn? ==> m > 0 && IsCommand(r[m - 1])
                                 && if r[m - 1] == CAPTURE_CMD then r[m].len == n else r[m - 1].val == r[m].len)
  {
  }

  lemma EnterWire(s: Dev, o: seq<Usb>, st: nat)
    requires s.Buffers() && o <= s.wire && WireOk(s.size, s.wire)
    requires InRoutine(s.size, s.wire, |o|) && MayEnter(s, o, st)
    ensures WireInv(Enter(s, st), o)
  {
    hide WireOk, InRoutine, PlaceIs, Routine, Command;
    CommandInRoutine(st, s.size);
    if st != WAIT_DELAY && st != LIFT_DELAY {
      SendNext(s.size, s.wire, o, if st == WAIT_LIFT then 0 else st - 1);
    }
  }

  lemma SendNext(n: nat, w: seq<Usb>, o: seq<Usb>, m: nat)
    requires WireOk(n, w) && o <= w && InRoutine(n, w, |o|) && m < 12
    requires m > 0 ==> |w| > 0 && PlaceIs(n, w, |o|, |w| - 1, m - 1)
    ensures var w' := w + [Routine(n)[m]];
            o <= w' && WireOk(n, w') && InRoutine(n, w', |o|) && PlaceIs(n, w', |o|, |w|, m)
  {
    hide WireOk, InRoutine, PlaceIs, Routine;
    if m > 0 { LastIs(n, w, |o|, m - 1); }
    RoutineFits(n, m);
    Extend(n, w, Routine(n)[m]);
    NextInRoutine(n, w, |o|, m);
  }

  /** r is s after acts that submit nothing: the operation is over or a new scan is at its first delay. */
  predicate Quiet(s: Dev, r: Dev) {
    r.wire == s.wire && (r.phase == Idle || r.phase == Scanning(WAIT_DELAY))
  }

  lemma StartScanQuiet(s: Dev)
    requires s.Buffers()
    ensures Quiet(s, StartScan(s))
  {
  }

  lemma CompleteQuiet(s: Dev, r: Result)
    ensures Quiet(s, Complete(s, r))
  {
  }

  lemma RetryQuiet(s: Dev)
    requires s.Buffers()
    ensures Quiet(s, Retry(s))
  {
    hide StartScan, Complete;
    StartScanQuiet(s);
    StartScanQuiet(s.Add(Progress(s.enrollDone, true)));
    CompleteQuiet(s.Add(IdentifyRetry), Done);
  }

  lemma FrameKeptQuiet(s: Dev, st: nat, blob: Option<seq<u8>>)
    requires s.Buffers()
    ensures Quiet(s, FrameKept(s, st, blob))
  {
    hide StartScan, Complete;
    var s' := s.(enrollDone := s.enrollDone + 1).Add(Progress(s.enrollDone + 1, false));
    StartScanQuiet(s');
    CompleteQuiet(s'.Add(Commit(blob)), if blob.None? then Failed else Template(blob.value));
  }

  lemma EnrollStepQuiet(s: Dev, a: Answers)
    requires s.Buffers()
    ensures Quiet(s, EnrollStep(s, a))
  {
    hide UpdateStatus, StartScan, FrameKept;
    var st := UpdateStatus(a);
    StartScanQuiet(s.Add(Update(st)).Add(Progress(s.enrollDone, true)));
    FrameKeptQuiet(s.Add(Update(st)), st, a.commit);
  }

  lemma IdentifyQuiet(s: Dev, a: Answers)
    ensures Quiet(s, IdentifyDone(s, a))
  {
    hide Search, Complete;
    var (r, calls) := Search(s.gallery, a.verify, 0);
    var s' := s.(log := s.log + calls);
    match r
    case Invalid => CompleteQuiet(s', Failed);
    case NoMatch => CompleteQuiet(s'.Add(IdentifyReport(None)), Done);
    case Match(i) => CompleteQuiet(s'.Add(IdentifyReport(Some(i))), Done);
  }

  lemma VerifyQuiet(s: Dev, a: Answers)
    ensures Quiet(s, VerifyDone(s, a))
  {
    hide EngineVerify, Complete;
    var hit := EngineVerify(s.tmpl, a.verify(0));
    CompleteQuiet(s.Add(VerifyCall(0, s.tmpl, hit)).Add(VerifyReport(hit)), Done);
  }

  lemma ScanDoneQuiet(s: Dev, a: Answers)
    requires s.Buffers()
    ensures Quiet(s, ScanDone(s, a))
  {
    hide Retry, EnrollStep, IdentifyDone, VerifyDone, Complete;
    if !s.scanOk {
      RetryQuiet(s);
    } else if !s.engineOk {
      CompleteQuiet(s, Failed);
    } else {
      var s' := s.Add(Accept(s.frame[..s.size], Purpose(s.Kind()), a.accept));
      if a.accept != 0 {
        RetryQuiet(s');
      } else {
        match s.Kind()
        case Identify => IdentifyQuiet(s', a);
        case Verify => VerifyQuiet(s', a);
        case Enroll => EnrollStepQuiet(s', a);
      }
    }
  }

  lemma ScanDoneWire(s: Dev, o: seq<Usb>, a: Answers)
    requires s.Buffers() && WireOk(s.size, s.wire) && o <= s.wire && InRoutine(s.size, s.wire, |o|)
    ensures WireInv(ScanDone(s, a), o)
  {
    hide WireOk, InRoutine, PlaceIs, ScanDone;
    ScanDoneQuiet(s, a);
  }

  lemma CaptureWire(s: Dev, o: seq<Usb>, data: seq<u8>)
    requires WireInv(s, o) && s.phase == Scanning(CAPTURE_READ)
    ensures WireInv(Capture(s, data), o)
  {
    hide WireOk, InRoutine, PlaceIs, Enter;
    if |data| >= s.size {
      var t := s.(frame := data[..s.size] + s.frame[s.size..], scanOk := true);
      EnterWire(t.Add(Captured(data[..s.size])), o, LIFT_DELAY);
    }
  }

  lemma ReactWire(s: Dev, o: seq<Usb>, data: seq<u8>, a: Answers)
    requires WireInv(s, o) && Waiting(s)
    ensures WireInv(React(s, s.phase.state, data, a), o)
  {
    hide WireOk, InRoutine, PlaceIs, Enter, ScanDone, Capture, CaptureBackground, CaptureLegacy, Byte0;
    var st := s.phase.state;
    if st == WAIT_FINGER {
      if Byte0(data) == 1 { EnterWire(s.Add(FingerSeen), o, st + 1); } else { EnterWire(s, o, WAIT_DELAY); }
    } else if st == CAPTURE_READ {
      CaptureWire(s, o, data);
    } else if st == WAIT_LIFT {
      if Byte0(data) == 0 { ScanDoneWire(s.Add(LiftSeen), o, a); } else { EnterWire(s, o, LIFT_DELAY); }
    } else {
      EnterWire(s, o, st + 1);
    }
  }

  lemma BeginEnrollWire(s: Dev, o: seq<Usb>)
    requires WireInv(s, o) && s.phase.Idle?
    ensures WireInv(StartEnroll(s), o)
  {
    hide WireOk, InRoutine, PlaceIs, StartScan;
    var reset := s.(isVerify := false, isIdentify := false, enrollDone := 0, hasBackground := false);
    var e := reset.Add(OpStart(Enroll, []));
    StartScanQuiet(if s.engineOk then e.Add(Begin) else e);
  }

  lemma BeginVerifyWire(s: Dev, o: seq<Usb>, stored: Print)
    requires WireInv(s, o) && s.phase.Idle?
    ensures WireInv(StartVerify(s, stored), o)
  {
    hide WireOk, InRoutine, PlaceIs, StartScan;
    var v := s.(isIdentify := false).Add(OpStart(Verify, [stored]));
    if stored.Some? { StartScanQuiet(v.(tmpl := stored.value, isVerify := true, hasBackground := false)); }
  }

  lemma BeginIdentifyWire(s: Dev, o: seq<Usb>, prints: seq<Print>)
    requires WireInv(s, o) && s.phase.Idle?
    ensures WireInv(StartIdentify(s, prints), o)
  {
    hide WireOk, InRoutine, PlaceIs, StartScan;
    var i := s.(isVerify := false, isIdentify := true, hasBackground := false, gallery := prints);
    StartScanQuiet(i.Add(OpStart(Identify, prints)));
  }

  lemma StepWire(s: Dev, o: seq<Usb>, e: Event)
    requires WireInv(s, o)
    ensures WireInv(Step(s, e), o)
  {
    hide WireOk, InRoutine, PlaceIs, React, Command, StartEnroll, StartVerify, StartIdentify;
    match e
    case BeginEnroll => if s.phase.Idle? { BeginEnrollWire(s, o); }
    case BeginVerify(stored) => if s.phase.Idle? { BeginVerifyWire(s, o, stored); }
    case BeginIdentify(prints) => if s.phase.Idle? { BeginIdentifyWire(s, o, prints); }
    case TransferFailed(_) =>
    case Tick => TickWire(s, o);
    case Transferred(data, a) => if Waiting(s) { ReactWire(s, o, data, a); }
  }

  lemma TickWire(s: Dev, o: seq<Usb>)
    requires WireInv(s, o)
    ensures WireInv(Step(s, Tick), o)
  {
    hide WireOk, InRoutine, PlaceIs, Enter, React;
    if s.phase.Scanning? && !Waiting(s) { EnterWire(s, o, s.phase.state + 1); }
  }

  lemma {:induction false} RunWire(s: Dev, o: seq<Usb>, events: seq<Event>)
    requires WireInv(s, o)
    ensures WireInv(RunFrom(s, events), o)
    decreases events
  {
    hide WireOk, InRoutine, PlaceIs, Step;
    if events != [] {
      StepWire(s, o, events[0]);
      RunWire(Step(s, events[0]), o, events[1..]);
    }
  }

  lemma {:induction false} SizeKept(s: Dev, events: seq<Event>)
    requires s.Buffers()
    ensures RunFrom(s, events).size == s.size
    decreases events
  {
    hide Step;
    if events != [] { SizeKept(Step(s, events[0]), events[1..]); }
  }

  lemma {:induction false} EngineKept(s: Dev, events: seq<Event>)
    requires s.Buffers()
    ensures RunFrom(s, events).engineOk == s.engineOk
    decreases events
  {
    hide Step;
    if events != [] { EngineKept(Step(s, events[0]), events[1..]); }
  }

  /** Over any run after a disciplined open: every 0x6f command comes right after an arm with value 3, every bulk
      read right after a 0x6f command, no upload traffic is ever sent; and every read has the announced length
      exactly when frames have 5120 bytes or none has been read. */
  lemma WireDiscipline(width: u8, height: u8, engineOk: bool, useFpn: bool, opening: seq<Usb>, events: seq<Event>)
    requires WireOk(width as int * height as int, opening)
    ensures var w := RunFrom(Opened(width, height, engineOk, useFpn, opening), events).wire;
            && (forall i :: 0 <= i < |w| ==> ArmedAt(w, i) && AnnouncedAt(w, i) && NoUpload(w[i]))
            && (Sized(w) <==> width as int * height as int == 5120 || forall i :: 0 <= i < |w| ==> !FrameReadAt(w, i))
  {
    hide RunFrom;
    var s := Opened(width, height, engineOk, useFpn, opening);
    NothingSent(s.size, opening);
    RunWire(s, opening, events);
    SizeKept(s, events);
    var w := RunFrom(s, events).wire;
    assert WireOk(s.size, w);
    if i :| 0 <= i < |w| && FrameReadAt(w, i) {
      assert w[i].len == s.size && w[i - 1].val == 5120;
      assert SizedAt(w, i) <==> s.size == 5120;
    }
  }

  /** Over any run, what a device sends after it was opened is made of captures in their exact order: polls, and
      beginnings of the eleven-transfer capture routine that each follow a poll. */
  lemma CaptureSequence(width: u8, height: u8, engineOk: bool, useFpn: bool, opening: seq<Usb>, events: seq<Event>)
    requires WireOk(width as int * height as int, opening)
    ensures var w := RunFrom(Opened(width, height, engineOk, useFpn, opening), events).wire;
            opening <= w && InRoutine(width as int * height as int, w, |opening|)
  {
    hide RunFrom, WireOk, InRoutine;
    var s := Opened(width, height, engineOk, useFpn, opening);
    assert InRoutine(s.size, opening, |opening|) by { NothingSent(s.size, opening); }
    RunWire(s, opening, events);
    SizeKept(s, events);
  }

  lemma NothingSent(n: nat, opening: seq<Usb>)
    ensures InRoutine(n, opening, |opening|)
  {
  }

  // ---- over all runs ----

  /** An engine that refuses everything. */
  const REFUSAL: Answers := Answers(1, 1, 1, 1, None, _ => false)

  lemma RunCons(s: Dev, e: Event, rest: seq<Event>)
    requires s.Buffers()
    ensures RunFrom(s, [e] + rest) == RunFrom(Step(s, e), rest)
  {
    hide Step;
    assert ([e] + rest)[1..] == rest;
  }

  lemma NextState(s: Dev)
    requires s.Buffers() && s.phase.Scanning? && 1 <= s.phase.state < CAPTURE_READ
    ensures Step(s, Transferred([1], REFUSAL)).phase == Scanning(s.phase.state + 1)
  {
  }

  /** With the finger down and every transfer going through, a scan gets to read its frame. */
  lemma {:induction false} ReachRead(s: Dev) returns (events: seq<Event>)
    requires s.Buffers() && s.phase.Scanning? && 1 <= s.phase.state <= CAPTURE_READ
    ensures RunFrom(s, events).phase == Scanning(CAPTURE_READ)
    decreases CAPTURE_READ - s.phase.state
  {
    hide Step;
    if s.phase.state == CAPTURE_READ {
      events := [];
    } else {
      var e := Transferred([1], REFUSAL);
      NextState(s);
      var rest := ReachRead(Step(s, e));
      events := [e] + rest;
      RunCons(s, e, rest);
    }
  }

  lemma FirstStates(s: Dev)
    requires s.Buffers() && s.phase.Idle?
    ensures Step(Step(s, BeginEnroll), Tick).phase == Scanning(WAIT_FINGER)
  {
  }

  /** Some run of an idle device ends by asking for a frame. */
  lemma FrameRun(s: Dev) returns (events: seq<Event>)
    requires s.Buffers() && s.phase.Idle?
    ensures RunFrom(s, events).phase == Scanning(CAPTURE_READ)
  {
    hide Step, RunFrom;
    FirstStates(s);
    var s1 := Step(s, BeginEnroll);
    var rest := ReachRead(Step(s1, Tick));
    RunCons(s1, Tick, rest);
    RunCons(s, BeginEnroll, [Tick] + rest);
    events := [BeginEnroll] + ([Tick] + rest);
  }

  /** After a disciplined open every read of every run has the announced length, exactly when frames have 5120 bytes. */
  lemma SizedExactlyFor5120(width: u8, height: u8, engineOk: bool, useFpn: bool, opening: seq<Usb>)
    requires WireOk(width as int * height as int, opening) && Sized(opening)
    ensures (forall events :: Sized(RunFrom(Opened(width, height, engineOk, useFpn, opening), events).wire))
            <==> width as int * height as int == 5120
  {
    hide RunFrom, WireOk, Sized;
    var s := Opened(width, height, engineOk, useFpn, opening);
    if width as int * height as int == 5120 {
      forall events ensures Sized(RunFrom(s, events).wire) {
        WireDiscipline(width, height, engineOk, useFpn, opening, events);
      }
    } else {
      var events := FrameRun(s);
      WireDiscipline(width, height, engineOk, useFpn, opening, events);
      NothingSent(s.size, opening);
      RunWire(s, opening, events);
      SizeKept(s, events);
      var w := RunFrom(s, events).wire;
      LastIs(s.size, w, |opening|, 11);
      BeforeLast(s.size, w, |opening|);
      assert FrameReadAt(w, |w| - 1);
    }
  }

  /** The frame read comes right after the capture command. */
  lemma BeforeLast(n: nat, w: seq<Usb>, from: nat)
    requires w != [] && PlaceIs(n, w, from, |w| - 1, 11)
    ensures |w| >= 2 && w[|w| - 2] == CAPTURE_CMD
  {
    var i := |w| - 1;
    assert w[i - 1] == w[i - 11..i + 1][10];
  }
}
