/** Safety of the driver over whole runs: what may follow what in the log of acts, for every sequence of events. */
module ScanTheory {
  import opened Bytes
  import opened ScanSpec

  // ---- what the log so far amounts to ----

  /** Between operations, operation begun but no scan yet, scan running, scan just ended. */
  datatype Control = Closed | Begun | InScan | Ended

  /** Summary of a log: its last act, where control stands, the running operation and the stored prints it is given,
      and within that operation the last captured frame, the last engine call, whether an enrollment session is open,
      and the number of frames the engine kept. */
  datatype Seen = Seen(last: Option<Act>, control: Control, running: Option<Kind>, prints: seq<Print>, frame: seq<u8>,
                       call: Option<Act>, session: bool, kept: nat)

  const NOTHING: Seen := Seen(None, Closed, None, [], [], None, false, 0)

  /** What a log is judged by: the length of a frame, and whether the engine is loaded. */
  datatype Setup = Setup(size: nat, engineOk: bool)

  function SetupOf(s: Dev): Setup { Setup(s.size, s.engineOk) }

  function Note(m: Seen, a: Act): Seen {
    (match a
     case OpStart(k, prints) => NOTHING.(running := Some(k), prints := prints, control := Begun)
     case ScanStart => m.(control := InScan)
     case Captured(f) => m.(frame := f)
     case LiftSeen => m.(control := Ended)
     case ScanFailed => m.(control := Ended)
     case Begin => m.(call := Some(a), session := true)
     case Accept(_, _, _) => m.(call := Some(a))
     case Update(st) => m.(call := Some(a), kept := if st == 2 then m.kept else m.kept + 1)
     case Commit(_) => m.(call := Some(a), session := false)
     case VerifyCall(_, _, _) => m.(call := Some(a))
     case OpComplete(_, _) => m.(running := None, control := Closed)
     case _ => m).(last := Some(a))
  }

  function Summary(log: seq<Act>): Seen {
    if log == [] then NOTHING else Note(Summary(log[..|log| - 1]), log[|log| - 1])
  }

  /** The engine reported completion, or the last stage was reached, and nothing was committed since. */
  predicate Due(m: Seen) {
    m.call.Some? && m.call.value.Update? && m.call.value.status != 2 && (m.call.value.status == 0 || m.kept >= STAGES)
  }

  predicate Accepted(last: Option<Act>, purpose: u8) {
    last.Some? && last.value.Accept? && last.value.purpose == purpose && last.value.hr == 0
  }

  predicate KeptFrame(last: Option<Act>) {
    last.Some? && last.value.Update? && last.value.status != 2
  }

  /** The frame of the ended scan was not kept: it was not accepted, or rejected. */
  predicate NotKeptAct(last: Option<Act>) {
    last.Some? && ((last.value.Accept? && last.value.hr != 0) || last.value == Update(2))
  }

  // ---- what may come next ----

  /** How an operation ends follows from its last act: a committed template, a report, or an error. */
  function ResultOf(last: Option<Act>): Result {
    match last
    case Some(Commit(Some(blob))) => Template(blob)
    case Some(VerifyReport(_)) => Done
    case Some(IdentifyReport(_)) => Done
    case Some(IdentifyRetry) => Done
    case _ => Failed
  }

  predicate Missed(last: Option<Act>) { last.Some? && last.value.VerifyCall? && !last.value.hit }

  predicate Matched(last: Option<Act>) { last.Some? && last.value.VerifyCall? && last.value.hit }

  /** The next stored print of a search that has called the engine for some. */
  function NextPrint(m: Seen): nat {
    if m.last.Some? && m.last.value.VerifyCall? then m.last.value.index + 1 else 0
  }

  /** Prints from..i are empty. */
  predicate Skipped(prints: seq<Print>, from: nat, i: nat) {
    from <= i <= |prints| && forall k :: from <= k < i ==> prints[k] == Some([])
  }

  /** Print i is ill-typed, and the prints from..i are empty. */
  predicate IllTypedAt(prints: seq<Print>, from: nat, i: nat) {
    i < |prints| && prints[i].None? && Skipped(prints, from, i)
  }

  ghost predicate IllTypedNext(prints: seq<Print>, from: nat) { exists i: nat :: IllTypedAt(prints, from, i) }

  /** A search has found nothing yet: the frame was just accepted, or the last call missed. */
  predicate StillSearching(m: Seen) { Accepted(m.last, 1) || Missed(m.last) }

  /** Where operation k may start a scan: at its beginning, an enrollment with an engine after beginning its session;
      in an enrollment after a progress report; in a verification silently after an unaccepted frame; in an
      identification never again. */
  predicate MayScan(n: Setup, m: Seen, k: Kind) {
    (m.last == Some(OpStart(k, m.prints)) && !(k == Enroll && n.engineOk))
    || match k
       case Enroll => m.last == Some(Begin) || (m.last.Some? && m.last.value.Progress? && m.control == Ended)
       case Verify => NotKeptAct(m.last)
       case Identify => false
  }

  /** Where operation k may end: after a failed scan, or any scan when there is no engine; or as its kind demands, a
      verification at once for an ill-typed print, an identification when its search meets one. */
  ghost predicate MayEnd(n: Setup, m: Seen, k: Kind) {
    m.last == Some(ScanFailed) || (m.last == Some(LiftSeen) && !n.engineOk)
    || match k
       case Enroll => m.last.Some? && m.last.value.Commit?
       case Verify => m.last == Some(OpStart(Verify, [None])) || (m.last.Some? && m.last.value.VerifyReport?)
       case Identify => (StillSearching(m) && IllTypedNext(m.prints, NextPrint(m))) || ResultOf(m.last) == Done
  }

  /** The protocol: act a may follow a log that amounts to m, on a device set up as n. */
  ghost predicate Allowed(n: Setup, m: Seen, a: Act) {
    match a
    // operations and scans: every ended scan leads to one new scan or to the completion of the running operation
    case OpStart(_, _) => m.control == Closed
    case ScanStart =>
      && m.running.Some? && (m.control == Begun || m.control == Ended)
      && !Due(m) && MayScan(n, m, m.running.value)
    case ScanFailed => m.control == InScan
    case OpComplete(k, r) =>
      && m.running == Some(k) && !Due(m) && (m.control == Ended || m.control == Begun)
      && MayEnd(n, m, k) && r == ResultOf(m.last)
    // within a scan: finger down, one whole frame, finger up
    case FingerSeen => m.control == InScan && m.last == Some(ScanStart)
    case Captured(f) => m.control == InScan && m.last == Some(FingerSeen) && |f| == n.size
    case LiftSeen => m.control == InScan && m.last.Some? && m.last.value.Captured?
    case Background(_) => false
    // engine calls
    case Begin => n.engineOk && m.last == Some(OpStart(Enroll, []))
    case Accept(f, p, _) =>
      && n.engineOk && m.control == Ended && m.last == Some(LiftSeen)
      && f == m.frame && m.running.Some? && p == Purpose(m.running.value)
    case Update(_) =>
      m.control == Ended && m.running == Some(Enroll) && Accepted(m.last, 4) && m.session && m.kept < STAGES
    case Commit(_) => m.running == Some(Enroll) && m.session && Due(m) && m.last == Some(Progress(m.kept, false))
    case VerifyCall(i, t, hit) =>
      && (hit ==> 0 < |t| <= MAX_TEMPLATE)
      && (match m.running
          case Some(Verify) => Accepted(m.last, 1) && i == 0 && m.prints == [Some(t)]
          case Some(Identify) =>
            && StillSearching(m) && Skipped(m.prints, NextPrint(m), i)
            && i < |m.prints| && m.prints[i] == Some(t) && t != []
          case _ => false)
    // reports
    case Progress(c, retry) =>
      && m.running == Some(Enroll) && c == m.kept
      && (if retry then m.control == Ended && NotKeptAct(m.last) else KeptFrame(m.last))
    case VerifyReport(hit) =>
      m.running == Some(Verify) && m.last.Some? && m.last.value.VerifyCall? && m.last.value.hit == hit
    case IdentifyReport(found) =>
      && m.running == Some(Identify)
      && (match found
          case Some(k) => Matched(m.last) && m.last.value.index == k
          case None => StillSearching(m) && Skipped(m.prints, NextPrint(m), |m.prints|))
    case IdentifyRetry =>
      m.running == Some(Identify) && m.control == Ended && (NotKeptAct(m.last) || m.last == Some(ScanFailed))
  }

  /** Every act was allowed where it happened. */
  ghost predicate LogOk(n: Setup, log: seq<Act>) {
    forall i :: 0 <= i < |log| ==> Allowed(n, Summary(log[..i]), log[i])
  }

  lemma Snoc(n: Setup, log: seq<Act>, a: Act)
    ensures Summary(log + [a]) == Note(Summary(log), a)
    ensures LogOk(n, log + [a]) <==> LogOk(n, log) && Allowed(n, Summary(log), a)
  {
    var l := log + [a];
    assert l[..|log|] == log;
    forall i | 0 <= i < |log| ensures l[..i] == log[..i] && l[i] == log[i] {}
    assert l[|log|] == a;
  }

  // ---- the invariant ----

  /** What a log amounting to m says about a device that is in the middle of operation s.Kind(). */
  predicate InOperation(s: Dev, m: Seen) {
    && m.running == Some(s.Kind()) && !Due(m)
    && match s.Kind()
       case Enroll => s.enrollDone == m.kept && m.kept < STAGES && (s.engineOk ==> m.session)
       case Verify => m.prints == [Some(s.tmpl)]
       case Identify => m.prints == s.gallery
  }

  predicate ScanStanding(s: Dev, m: Seen, st: nat)
    requires s.Buffers()
  {
    && st < LEGACY && m.control == InScan && InOperation(s, m) && m.last.Some?
    && (st <= WAIT_FINGER ==> m.last.value == ScanStart)
    && (WAIT_FINGER < st <= CAPTURE_READ ==> m.last.value == FingerSeen)
    && (CAPTURE_READ < st ==> m.last.value == Captured(s.frame[..s.size]) && m.frame == s.frame[..s.size] && s.scanOk)
  }

  predicate Standing(s: Dev)
    requires s.Buffers()
  {
    var m := Summary(s.log);
    match s.phase
    case Idle => m.control == Closed && m.running.None?
    case Scanning(st) => ScanStanding(s, m, st)
  }

  /** Holds between any two events of any run. */
  ghost predicate Inv(s: Dev) {
    s.Buffers() && LogOk(SetupOf(s), s.log) && Standing(s)
  }

  /** s may add act a to its log. */
  ghost predicate May(s: Dev, a: Act) {
    LogOk(SetupOf(s), s.log) && Allowed(SetupOf(s), Summary(s.log), a)
  }

  lemma Adding(s: Dev, a: Act)
    requires May(s, a)
    ensures LogOk(SetupOf(s), s.Add(a).log) && Summary(s.Add(a).log) == Note(Summary(s.log), a)
  {
    Snoc(SetupOf(s), s.log, a);
  }

  lemma EnterKeepsLog(s: Dev, st: nat)
    requires s.Buffers() && st != SUBMIT
    ensures Enter(s, st) == s.(phase := Scanning(st), wire := Enter(s, st).wire)
  {
  }

  lemma StartScanOk(s: Dev)
    requires s.Buffers() && May(s, ScanStart) && InOperation(s, Summary(s.log))
    ensures Inv(StartScan(s))
  {
    Adding(s, ScanStart);
    EnterKeepsLog(s.Add(ScanStart), WAIT_DELAY);
  }

  lemma CompleteOk(s: Dev, r: Result)
    requires s.Buffers() && May(s, OpComplete(s.Kind(), r))
    ensures Inv(Complete(s, r))
  {
    hide LogOk, Summary, MayEnd, ResultOf;
    Adding(s.(phase := Idle), OpComplete(s.Kind(), r));
  }

  /** A scan has ended and its frame was not kept. */
  ghost predicate NotKept(s: Dev) {
    var m := Summary(s.log);
    s.Buffers() && LogOk(SetupOf(s), s.log) && m.control == Ended && InOperation(s, m)
    && NotKeptAct(m.last)
  }

  lemma RetryOk(s: Dev)
    requires NotKept(s)
    ensures Inv(Retry(s))
  {
    hide StartScan, Complete, LogOk, Summary;
    match s.Kind()
    case Identify =>
      Adding(s, IdentifyRetry);
      CompleteOk(s.Add(IdentifyRetry), Done);
    case Verify =>
      StartScanOk(s);
    case Enroll =>
      Adding(s, Progress(s.enrollDone, true));
      StartScanOk(s.Add(Progress(s.enrollDone, true)));
  }

  lemma CompleteWithErrorOk(s: Dev, retry: bool)
    requires s.Buffers() && LogOk(SetupOf(s), s.log)
    requires Summary(s.log).control == Ended && InOperation(s, Summary(s.log))
    requires Summary(s.log).last == Some(ScanFailed)
    ensures Inv(CompleteWithError(s, retry))
  {
    hide Complete, LogOk, Summary;
    if s.Kind().Identify? && retry {
      Adding(s, IdentifyRetry);
      CompleteOk(s.Add(IdentifyRetry), Done);
    } else {
      CompleteOk(s, Failed);
    }
  }

  /** The engine has just accepted the frame for operation s.Kind(). */
  ghost predicate JustAccepted(s: Dev) {
    var m := Summary(s.log);
    s.Buffers() && LogOk(SetupOf(s), s.log) && m.control == Ended && InOperation(s, m) && s.engineOk
    && Accepted(m.last, Purpose(s.Kind()))
  }

  lemma FrameRejectedOk(s: Dev)
    requires JustAccepted(s) && s.Kind() == Enroll
    ensures Inv(StartScan(s.Add(Update(2)).Add(Progress(s.enrollDone, true))))
  {
    hide StartScan, LogOk, Summary;
    Adding(s, Update(2));
    Adding(s.Add(Update(2)), Progress(s.enrollDone, true));
    StartScanOk(s.Add(Update(2)).Add(Progress(s.enrollDone, true)));
  }

  /** The engine has kept a frame that is not yet counted or reported. */
  ghost predicate JustKept(s: Dev, st: nat) {
    var m := Summary(s.log);
    && s.Buffers() && LogOk(SetupOf(s), s.log) && s.Kind() == Enroll && m.running == Some(Enroll) && m.control == Ended
    && m.session && m.kept == s.enrollDone + 1 <= STAGES
    && m.call == Some(Update(st)) && m.last == Some(Update(st)) && st != 2
  }

  /** After the progress report, only the count and the status decide what is due. */
  lemma Reported(s: Dev, st: nat)
    requires JustKept(s, st)
    ensures var n := s.enrollDone + 1;
            var s' := s.(enrollDone := n).Add(Progress(n, false));
            LogOk(SetupOf(s), s'.log) && Summary(s'.log) == Summary(s.log).(last := Some(Progress(n, false)))
  {
    hide LogOk, Summary;
    Snoc(SetupOf(s), s.log, Progress(s.enrollDone + 1, false));
  }

  lemma CommitOk(s: Dev, blob: Option<seq<u8>>)
    requires s.Buffers() && May(s, Commit(blob)) && s.Kind() == Enroll && Summary(s.log).control == Ended
    ensures Inv(Complete(s.Add(Commit(blob)), if blob.None? then Failed else Template(blob.value)))
  {
    hide Complete, LogOk, Summary;
    Adding(s, Commit(blob));
    CompleteOk(s.Add(Commit(blob)), if blob.None? then Failed else Template(blob.value));
  }

  lemma FrameKeptOk(s: Dev, st: nat, blob: Option<seq<u8>>)
    requires JustKept(s, st)
    ensures Inv(FrameKept(s, st, blob))
  {
    hide StartScan, Complete, LogOk, Summary;
    var n := s.enrollDone + 1;
    var s' := s.(enrollDone := n).Add(Progress(n, false));
    Reported(s, st);
    if n < STAGES && st != 0 {
      StartScanOk(s');
    } else {
      CommitOk(s', blob);
    }
  }

  lemma EnrollStepOk(s: Dev, a: Answers)
    requires JustAccepted(s) && s.Kind() == Enroll
    ensures Inv(EnrollStep(s, a))
  {
    hide StartScan, FrameKept, LogOk, Summary, UpdateStatus;
    var st := UpdateStatus(a);
    if st == 2 {
      FrameRejectedOk(s);
    } else {
      Adding(s, Update(st));
      FrameKeptOk(s.Add(Update(st)), st, a.commit);
    }
  }

  /** The verdict on the stored print is in. */
  lemma VerdictOk(s: Dev, hit: bool)
    requires s.Buffers() && s.Kind() == Verify && LogOk(SetupOf(s), s.log)
    requires var m := Summary(s.log);
             m.control == Ended && m.running == Some(Verify) && !Due(m) && m.last == Some(VerifyCall(0, s.tmpl, hit))
    ensures Inv(Complete(s.Add(VerifyReport(hit)), Done))
  {
    hide Complete, LogOk, Summary;
    Adding(s, VerifyReport(hit));
    CompleteOk(s.Add(VerifyReport(hit)), Done);
  }

  lemma VerifyDoneOk(s: Dev, a: Answers)
    requires JustAccepted(s) && s.Kind() == Verify
    ensures Inv(VerifyDone(s, a))
  {
    hide Complete, LogOk, Summary, EngineVerify;
    var hit := EngineVerify(s.tmpl, a.verify(0));
    HitFits(s.tmpl, a.verify(0));
    Adding(s, VerifyCall(0, s.tmpl, hit));
    VerdictOk(s.Add(VerifyCall(0, s.tmpl, hit)), hit);
  }

  /** A log in an identify operation whose gallery search has come to print i without a match. */
  ghost predicate Searching(n: Setup, log: seq<Act>, gallery: seq<Print>, i: nat) {
    var m := Summary(log);
    && LogOk(n, log) && m.control == Ended && m.running == Some(Identify) && !Due(m) && m.prints == gallery
    && StillSearching(m) && Skipped(gallery, NextPrint(m), i)
  }

  /** The search is over, as `found` says. */
  ghost predicate Searched(n: Setup, log: seq<Act>, gallery: seq<Print>, found: Found) {
    var m := Summary(log);
    && LogOk(n, log) && m.control == Ended && m.running == Some(Identify) && !Due(m) && m.prints == gallery
    && match found
       case Match(k) => Matched(m.last) && m.last.value.index == k
       case NoMatch => StillSearching(m) && Skipped(gallery, NextPrint(m), |gallery|)
       case Invalid => StillSearching(m) && IllTypedNext(gallery, NextPrint(m))
  }

  lemma Called(n: Setup, log: seq<Act>, gallery: seq<Print>, i: nat, t: seq<u8>, hit: bool)
    requires Searching(n, log, gallery, i) && i < |gallery| && gallery[i] == Some(t) && t != []
    requires hit ==> |t| <= MAX_TEMPLATE
    ensures hit ==> Searched(n, log + [VerifyCall(i, t, true)], gallery, Match(i))
    ensures !hit ==> Searching(n, log + [VerifyCall(i, t, false)], gallery, i + 1)
  {
    hide LogOk, Summary;
    Snoc(n, log, VerifyCall(i, t, hit));
  }

  lemma SearchEnds(n: Setup, log: seq<Act>, gallery: seq<Print>, i: nat)
    requires Searching(n, log, gallery, i)
    ensures i == |gallery| ==> Searched(n, log, gallery, NoMatch)
    ensures i < |gallery| && gallery[i].None? ==> Searched(n, log, gallery, Invalid)
    ensures i < |gallery| && gallery[i] == Some([]) ==> Searching(n, log, gallery, i + 1)
  {
    hide LogOk, Summary;
    if i < |gallery| && gallery[i].None? { assert IllTypedAt(gallery, NextPrint(Summary(log)), i); }
  }

  /** The search from print i on keeps to the protocol. */
  lemma {:induction false} SearchOk(n: Setup, log: seq<Act>, gallery: seq<Print>, verify: nat -> bool, i: nat)
    requires Searching(n, log, gallery, i) && i <= |gallery|
    ensures Searched(n, log + Search(gallery, verify, i).1, gallery, Search(gallery, verify, i).0)
    decreases |gallery| - i
  {
    hide Searching, Searched, EngineVerify;
    assert log + [] == log;
    SearchEnds(n, log, gallery, i);
    if i < |gallery| && gallery[i].Some? {
      var t := gallery[i].value;
      if t == [] {
        SearchOk(n, log, gallery, verify, i + 1);
      } else {
        var hit := EngineVerify(t, verify(i));
        assert hit ==> |t| <= MAX_TEMPLATE by { HitFits(t, verify(i)); }
        Called(n, log, gallery, i, t, hit);
        if !hit {
          var log' := log + [VerifyCall(i, t, false)];
          SearchOk(n, log', gallery, verify, i + 1);
          assert log + Search(gallery, verify, i).1 == log' + Search(gallery, verify, i + 1).1;
        }
      }
    }
  }

  lemma HitFits(t: seq<u8>, answer: bool)
    ensures EngineVerify(t, answer) ==> 0 < |t| <= MAX_TEMPLATE
  {
  }

  lemma ReportFound(s: Dev, found: Option<nat>)
    requires s.Buffers() && s.Kind() == Identify
    requires Searched(SetupOf(s), s.log, s.gallery, if found.Some? then Match(found.value) else NoMatch)
    ensures Inv(Complete(s.Add(IdentifyReport(found)), Done))
  {
    hide LogOk, Summary, Complete;
    Adding(s, IdentifyReport(found));
    CompleteOk(s.Add(IdentifyReport(found)), Done);
  }

  lemma ReportInvalid(s: Dev)
    requires s.Buffers() && s.Kind() == Identify && Searched(SetupOf(s), s.log, s.gallery, Invalid)
    ensures Inv(Complete(s, Failed))
  {
    hide LogOk, Summary, Complete;
    CompleteOk(s, Failed);
  }

  lemma IdentifyDoneOk(s: Dev, a: Answers)
    requires s.Buffers() && s.Kind() == Identify && Searching(SetupOf(s), s.log, s.gallery, 0)
    ensures Inv(IdentifyDone(s, a))
  {
    hide LogOk, Summary, Search, Complete, Inv, Searching, Searched;
    SearchOk(SetupOf(s), s.log, s.gallery, a.verify, 0);
    var (r, calls) := Search(s.gallery, a.verify, 0);
    var s1 := s.(log := s.log + calls);
    match r
    case Invalid => ReportInvalid(s1);
    case NoMatch => ReportFound(s1, None);
    case Match(i) => ReportFound(s1, Some(i));
  }

  /** A scan has just ended with the finger lifted. */
  ghost predicate JustLifted(s: Dev) {
    var m := Summary(s.log);
    s.Buffers() && LogOk(SetupOf(s), s.log) && m.control == Ended && InOperation(s, m)
    && m.last == Some(LiftSeen) && m.frame == s.frame[..s.size] && s.scanOk
  }

  lemma ScanDoneOk(s: Dev, a: Answers)
    requires JustLifted(s)
    ensures Inv(ScanDone(s, a))
  {
    hide LogOk, Summary, Complete, Retry, IdentifyDone, VerifyDone, EnrollStep;
    if !s.engineOk {
      CompleteOk(s, Failed);
    } else {
      var call := Accept(s.frame[..s.size], Purpose(s.Kind()), a.accept);
      Adding(s, call);
      var s1 := s.Add(call);
      if a.accept != 0 {
        RetryOk(s1);
      } else {
        match s.Kind()
        case Identify => IdentifyDoneOk(s1, a);
        case Verify => VerifyDoneOk(s1, a);
        case Enroll => EnrollStepOk(s1, a);
      }
    }
  }

  /** Moving to another state of the scan that the log is in. */
  lemma EnterOk(s: Dev, st: nat)
    requires s.Buffers() && LogOk(SetupOf(s), s.log) && ScanStanding(s, Summary(s.log), st)
    ensures Inv(Enter(s, st))
  {
    hide LogOk, Summary;
    EnterKeepsLog(s, st);
  }

  lemma CaptureOk(s: Dev, data: seq<u8>)
    requires s.Buffers() && LogOk(SetupOf(s), s.log) && ScanStanding(s, Summary(s.log), CAPTURE_READ)
    ensures Inv(Capture(s, data))
  {
    hide LogOk, Summary, Enter, CompleteWithError;
    if |data| < s.size {
      Adding(s, ScanFailed);
      CompleteWithErrorOk(s.Add(ScanFailed), false);
    } else {
      var f := data[..s.size];
      var s1 := s.(frame := f + s.frame[s.size..], scanOk := true);
      assert s1.frame[..s.size] == f;
      Adding(s1, Captured(f));
      EnterOk(s1.Add(Captured(f)), LIFT_DELAY);
    }
  }

  lemma ReactOk(s: Dev, st: nat, data: seq<u8>, a: Answers)
    requires s.Buffers() && LogOk(SetupOf(s), s.log) && ScanStanding(s, Summary(s.log), st)
    requires st != WAIT_DELAY && st != LIFT_DELAY
    ensures Inv(React(s, st, data, a))
  {
    hide LogOk, Summary, Enter, ScanDone, Capture, Byte0;
    if st == WAIT_FINGER {
      if Byte0(data) == 1 {
        Adding(s, FingerSeen);
        EnterOk(s.Add(FingerSeen), st + 1);
      } else {
        EnterOk(s, WAIT_DELAY);
      }
    } else if st == CAPTURE_READ {
      CaptureOk(s, data);
    } else if st == WAIT_LIFT {
      if Byte0(data) == 0 {
        Adding(s, LiftSeen);
        ScanDoneOk(s.Add(LiftSeen), a);
      } else {
        EnterOk(s, LIFT_DELAY);
      }
    } else {
      EnterOk(s, st + 1);
    }
  }

  lemma StartEnrollOk(s: Dev)
    requires Inv(s) && s.phase.Idle?
    ensures Inv(StartEnroll(s))
  {
    hide LogOk, Summary, StartScan;
    var s1 := s.(isVerify := false, isIdentify := false, enrollDone := 0, hasBackground := false);
    Adding(s1, OpStart(Enroll, []));
    var s2 := s1.Add(OpStart(Enroll, []));
    if s.engineOk {
      Adding(s2, Begin);
      StartScanOk(s2.Add(Begin));
    } else {
      StartScanOk(s2);
    }
  }

  /** A stored print of the wrong type ends the verification before any scan. */
  lemma RefusedOk(s: Dev)
    requires s.Buffers() && s.phase.Idle? && LogOk(SetupOf(s), s.log)
    requires Summary(s.log) == NOTHING.(running := Some(Verify), prints := [None], control := Begun,
                                        last := Some(OpStart(Verify, [None])))
    ensures Inv(s.Add(OpComplete(Verify, Failed)))
  {
    hide LogOk, Summary;
    Adding(s, OpComplete(Verify, Failed));
  }

  lemma StartVerifyOk(s: Dev, stored: Print)
    requires Inv(s) && s.phase.Idle?
    ensures Inv(StartVerify(s, stored))
  {
    hide LogOk, Summary, StartScan;
    var s1 := s.(isIdentify := false);
    Adding(s1, OpStart(Verify, [stored]));
    var s2 := s1.Add(OpStart(Verify, [stored]));
    if stored.None? {
      RefusedOk(s2);
    } else {
      StartScanOk(s2.(tmpl := stored.value, isVerify := true, hasBackground := false));
    }
  }

  lemma StartIdentifyOk(s: Dev, prints: seq<Print>)
    requires Inv(s) && s.phase.Idle?
    ensures Inv(StartIdentify(s, prints))
  {
    hide LogOk, Summary, StartScan;
    var s1 := s.(isVerify := false, isIdentify := true, hasBackground := false, gallery := prints);
    Adding(s1, OpStart(Identify, prints));
    StartScanOk(s1.Add(OpStart(Identify, prints)));
  }

  /** Every event keeps the invariant. */
  lemma StepOk(s: Dev, e: Event)
    requires Inv(s)
    ensures Inv(Step(s, e))
  {
    hide LogOk, Summary, Enter, React, StartEnroll, StartVerify, StartIdentify, CompleteWithError;
    match e
    case BeginEnroll => if s.phase.Idle? { StartEnrollOk(s); }
    case BeginVerify(stored) => if s.phase.Idle? { StartVerifyOk(s, stored); }
    case BeginIdentify(prints) => if s.phase.Idle? { StartIdentifyOk(s, prints); }
    case Tick => if s.phase.Scanning? && !Waiting(s) { EnterOk(s, s.phase.state + 1); }
    case TransferFailed(retry) =>
      if Waiting(s) {
        Adding(s, ScanFailed);
        CompleteWithErrorOk(s.Add(ScanFailed), retry);
      }
    case Transferred(data, a) => if Waiting(s) { ReactOk(s, s.phase.state, data, a); }
  }

  lemma {:induction false} RunOk(s: Dev, events: seq<Event>)
    requires Inv(s)
    ensures Inv(RunFrom(s, events))
    decreases events
  {
    if events != [] {
      StepOk(s, events[0]);
      RunOk(Step(s, events[0]), events[1..]);
    }
  }
}
