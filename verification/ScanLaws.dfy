/** What a reader of the driver's log and of its USB traffic may conclude, for every run. */
module ScanLaws {
  import opened Bytes
  import opened ScanSpec
  import opened ScanTheory
  import opened Wire
  import opened Pixels

  /** The log keeps to the protocol, a running scan never leaves the fifteen states of this sensor, and the mode flags
      name the running operation. */
  ghost predicate WellRun(s: Dev) {
    Inv(s) && match s.phase
              case Idle => Summary(s.log).running.None?
              case Scanning(st) => st < LEGACY && Summary(s.log).running == Some(s.Kind())
  }

  /** So it is after any run of a freshly opened device. */
  lemma AnyRun(width: u8, height: u8, engineOk: bool, useFpn: bool, wire: seq<Usb>, events: seq<Event>)
    ensures WellRun(RunFrom(Opened(width, height, engineOk, useFpn, wire), events))
  {
    RunOk(Opened(width, height, engineOk, useFpn, wire), events);
  }

  /** And after any run of a device that is opened again: whatever flags, counter, buffers and prints earlier sessions
      have left behind, the log of this session is as for a fresh device. */
  lemma AnySession(s: Dev, events: seq<Event>)
    requires s.Buffers() && s.phase.Idle? && s.log == []
    ensures WellRun(RunFrom(s, events))
  {
    RunOk(s, events);
  }

  // ---- frames ----

  /** A frame handed to the engine is the whole frame captured in the scan that has just ended: the acts before it
      are the start of that scan, a finger-present poll, that very capture and a finger-absent poll. */
  lemma FrameIsFresh(n: Setup, log: seq<Act>, i: nat)
    requires LogOk(n, log) && i < |log| && log[i].Accept?
    ensures i >= 4 && log[i - 1] == LiftSeen && log[i - 2] == Captured(log[i].frame) && |log[i].frame| == n.size
    ensures log[i - 3] == FingerSeen && log[i - 4] == ScanStart
  {
    Before(n, log, i);
    Before(n, log, i - 1);
    Before(n, log, i - 2);
    Before(n, log, i - 3);
  }

  /** Act i was allowed, and the act before it is the last one its summary knows. */
  lemma Before(n: Setup, log: seq<Act>, i: nat)
    requires LogOk(n, log) && i < |log|
    ensures Allowed(n, Summary(log[..i]), log[i])
    ensures i > 0 ==> Summary(log[..i]) == Note(Summary(log[..i - 1]), log[i - 1])
    ensures Summary(log[..i]).last == if i > 0 then Some(log[i - 1]) else None
  {
    if i > 0 { assert log[..i][..i - 1] == log[..i - 1]; }
  }

  /** Between any two frames handed to the engine, the finger was lifted after the capture of the first, and the second
      was captured in a scan that began after that lift. */
  lemma SeparatedByLift(n: Setup, log: seq<Act>, i: nat, j: nat)
    requires LogOk(n, log) && i < j < |log| && log[i].Accept? && log[j].Accept?
    ensures i >= 2 && log[i - 2] == Captured(log[i].frame) && log[i - 1] == LiftSeen
    ensures i < j - 4 && log[j - 4] == ScanStart && log[j - 3] == FingerSeen && log[j - 2] == Captured(log[j].frame)
  {
    hide LogOk;
    FrameIsFresh(n, log, i);
    FrameIsFresh(n, log, j);
    assert i != j - 1 && i != j - 2 && i != j - 3 && i != j - 4;
  }

  /** No captured frame is passed over: with a loaded engine the act after a lift hands it the frame just captured;
      without one the operation ends with an error. */
  lemma LiftIsActedOn(n: Setup, log: seq<Act>, i: nat)
    requires LogOk(n, log) && i + 1 < |log| && log[i] == LiftSeen
    ensures if n.engineOk then i > 0 && log[i + 1].Accept? && log[i - 1] == Captured(log[i + 1].frame)
            else log[i + 1].OpComplete? && log[i + 1].result == Failed
    ensures log[i + 1].OpComplete? ==> Summary(log[..i]).running == Some(log[i + 1].kind)
  {
    hide LogOk, Summary;
    Before(n, log, i);
    Before(n, log, i + 1);
    if log[i + 1].Accept? { FrameIsFresh(n, log, i + 1); }
  }

  // ---- engine calls ----

  predicate IsCall(a: Act) { a.Begin? || a.Accept? || a.Update? || a.Commit? || a.VerifyCall? }

  /** The engine call at c is the last one before i. */
  predicate CallBefore(log: seq<Act>, c: nat, i: nat) {
    c < i <= |log| && IsCall(log[c]) && forall k :: c < k < i ==> !IsCall(log[k])
  }

  /** A session was begun at b and is still open at i: no commit and no other operation since. */
  predicate SessionFrom(log: seq<Act>, b: nat, i: nat) {
    b < i <= |log| && log[b] == Begin && forall k :: b < k < i ==> !log[k].Commit? && !log[k].OpStart?
  }

  lemma {:induction false} CallIs(log: seq<Act>, i: nat)
    requires i <= |log|
    ensures Summary(log[..i]).call.Some?
            ==> exists c: nat :: CallBefore(log, c, i) && log[c] == Summary(log[..i]).call.value
  {
    hide Summary, Note, IsCall;
    if i == 0 {
      NothingYet();
    } else {
      SummaryStep(log, i);
      CallIs(log, i - 1);
      var m := Summary(log[..i - 1]);
      CallNoted(m, log[i - 1]);
      if IsCall(log[i - 1]) {
        assert CallBefore(log, i - 1, i);
      } else if Summary(log[..i]).call.Some? {
        var c: nat :| CallBefore(log, c, i - 1) && log[c] == m.call.value;
        assert CallBefore(log, c, i);
      }
    }
  }

  lemma CallNoted(m: Seen, a: Act)
    ensures if IsCall(a) then Note(m, a).call == Some(a)
            else Note(m, a).call.None? || Note(m, a).call == m.call
  {
  }

  lemma {:induction false} SessionIs(log: seq<Act>, i: nat)
    requires i <= |log|
    ensures Summary(log[..i]).session ==> exists b: nat :: SessionFrom(log, b, i)
  {
    if i > 0 {
      assert log[..i][..i - 1] == log[..i - 1];
      SessionIs(log, i - 1);
      if log[i - 1] == Begin {
        assert SessionFrom(log, i - 1, i);
      } else if Summary(log[..i - 1]).session && !log[i - 1].Commit? && !log[i - 1].OpStart? {
        var b: nat :| SessionFrom(log, b, i - 1);
        assert SessionFrom(log, b, i);
      }
    }
  }

  /** update is called only right after an enrollment accept that returned 0, in an open session. */
  lemma UpdateContract(n: Setup, log: seq<Act>, i: nat)
    requires LogOk(n, log) && i < |log| && log[i].Update?
    ensures i > 0 && log[i - 1].Accept? && log[i - 1].purpose == 4 && log[i - 1].hr == 0
    ensures exists b: nat :: SessionFrom(log, b, i)
  {
    Before(n, log, i);
    SessionIs(log, i);
  }

  /** The last call before a commit is an update that kept its frame; the session is open, and the update reported
      completion or was the eighteenth to keep its frame. */
  lemma CommitContract(n: Setup, log: seq<Act>, i: nat)
    requires LogOk(n, log) && i < |log| && log[i].Commit?
    ensures exists c: nat :: CallBefore(log, c, i) && log[c].Update? && log[c].status != 2
                        && (log[c].status == 0 || Summary(log[..i]).kept >= 18)
    ensures exists b: nat :: SessionFrom(log, b, i)
  {
    Before(n, log, i);
    CallIs(log, i);
    SessionIs(log, i);
  }

  /** Between two commits a new session is begun: at most one commit per session. */
  lemma CommitOncePerSession(n: Setup, log: seq<Act>, i: nat, j: nat)
    requires LogOk(n, log) && i < j < |log| && log[i].Commit? && log[j].Commit?
    ensures exists b :: i < b < j && log[b] == Begin
  {
    CommitContract(n, log, j);
    var b: nat :| SessionFrom(log, b, j);
  }

  /** The acts from a + 1 up to i are verify calls that found no match. */
  predicate OnlyMisses(log: seq<Act>, a: nat, i: nat) {
    a < i <= |log| && forall k :: a < k < i ==> log[k].VerifyCall? && !log[k].hit
  }

  /** verify is called only after a verification accept that returned 0, with nothing but failed verify calls of the
      same search in between. */
  lemma {:induction false} VerifyContract(n: Setup, log: seq<Act>, i: nat)
    requires LogOk(n, log) && i < |log| && log[i].VerifyCall?
    ensures exists a: nat :: OnlyMisses(log, a, i) && Accepted(Some(log[a]), 1)
  {
    hide LogOk, Summary, Note, Allowed;
    Before(n, log, i);
    CallFollows(n, Summary(log[..i]), log[i]);
    if log[i - 1].Accept? {
      assert OnlyMisses(log, i - 1, i);
    } else {
      VerifyContract(n, log, i - 1);
      var a: nat :| OnlyMisses(log, a, i - 1) && Accepted(Some(log[a]), 1);
      assert OnlyMisses(log, a, i);
    }
  }

  lemma CallFollows(n: Setup, m: Seen, a: Act)
    requires Allowed(n, m, a) && a.VerifyCall?
    ensures Accepted(m.last, 1) || Missed(m.last)
  {
  }

  /** Every verdict of the engine on a frame is acted on, by the next act: an accepted frame is folded into the
      template or compared, a rejected one is reported as a retry, except in a verification, which silently scans
      again. */
  lemma VerdictIsActedOn(n: Setup, log: seq<Act>, i: nat)
    requires LogOk(n, log) && i + 1 < |log| && log[i].Accept?
    ensures var next := log[i + 1];
            match Summary(log[..i]).running
            case Some(Enroll) => if log[i].hr == 0 then next.Update? else next.Progress? && next.retry
            case Some(Verify) => if log[i].hr == 0 then next.VerifyCall? else next == ScanStart
            case Some(Identify) =>
              if log[i].hr != 0 then next == IdentifyRetry
              else next.VerifyCall? || next == IdentifyReport(None) || next == OpComplete(Identify, Failed)
            case None => false
  {
    hide LogOk, Summary;
    Before(n, log, i);
    Before(n, log, i + 1);
  }

  /** An operation's result is decided by the act before it: the template just committed, done after a report, and an
      error otherwise; in particular a template is returned exactly when it was just committed. */
  lemma ResultIsLastAct(n: Setup, log: seq<Act>, j: nat)
    requires LogOk(n, log) && j < |log| && log[j].OpComplete?
    ensures j > 0 && log[j].result == ResultOf(Some(log[j - 1])) && Summary(log[..j]).running == Some(log[j].kind)
    ensures forall b :: log[j].result == Template(b) <==> log[j - 1] == Commit(Some(b))
  {
    hide LogOk, Summary;
    Before(n, log, j);
    if j == 0 { NothingYet(); }
  }

  lemma NothingYet()
    ensures Summary([]) == NOTHING
  {
  }

  // ---- which prints are compared ----

  /** The operation begun at o, for these prints, is still running at i. */
  predicate StartedAt(log: seq<Act>, o: nat, i: nat, kind: Kind, prints: seq<Print>) {
    o < i <= |log| && log[o] == OpStart(kind, prints) && forall k :: o < k < i ==> !log[k].OpStart?
  }

  ghost predicate Started(log: seq<Act>, i: nat, kind: Kind, prints: seq<Print>) {
    exists o: nat :: StartedAt(log, o, i, kind, prints)
  }

  lemma {:induction false} StartIs(log: seq<Act>, i: nat)
    requires i <= |log|
    ensures var m := Summary(log[..i]); m.running.Some? ==> Started(log, i, m.running.value, m.prints)
  {
    hide Summary, Note;
    if i == 0 {
      NothingYet();
    } else {
      SummaryStep(log, i);
      StartIs(log, i - 1);
      var m, m' := Summary(log[..i - 1]), Summary(log[..i]);
      StartNoted(m, log[i - 1]);
      if log[i - 1].OpStart? {
        assert StartedAt(log, i - 1, i, log[i - 1].kind, log[i - 1].prints);
      } else if m'.running.Some? {
        var o: nat :| StartedAt(log, o, i - 1, m.running.value, m.prints);
        assert StartedAt(log, o, i, m.running.value, m.prints);
      }
    }
  }

  /** Only a start sets the running operation and its prints. */
  lemma StartNoted(m: Seen, a: Act)
    ensures a.OpStart? ==> Note(m, a).running == Some(a.kind) && Note(m, a).prints == a.prints
    ensures !a.OpStart? && Note(m, a).running.Some? ==> m.running == Note(m, a).running && m.prints == Note(m, a).prints
  {
  }

  /** A verification reports the engine's verdict on exactly the print it was begun with, on the frame just accepted. */
  lemma VerdictIsOnStoredPrint(n: Setup, log: seq<Act>, i: nat)
    requires LogOk(n, log) && i < |log| && log[i].VerifyReport?
    ensures i >= 2 && Accepted(Some(log[i - 2]), 1)
    ensures log[i - 1].VerifyCall? && log[i - 1].hit == log[i].matched
    ensures Started(log, i, Verify, [Some(log[i - 1].tmpl)])
    ensures log[i].matched ==> 0 < |log[i - 1].tmpl| <= 0x10_0000
  {
    hide LogOk, Summary;
    Before(n, log, i);
    Before(n, log, i - 1);
    StartIs(log, i);
  }

  /** In a search that calls the engine for print `to` at c, every print before it was empty or was called for, and
      missed, since the accept at a. */
  ghost predicate AllMissed(log: seq<Act>, a: nat, c: nat, prints: seq<Print>, to: nat) {
    to <= |prints| && forall q :: 0 <= q < to ==> MissedPrint(log, a, c, prints, q)
  }

  ghost predicate MissedPrint(log: seq<Act>, a: nat, c: nat, prints: seq<Print>, q: nat)
    requires q < |prints|
  {
    || prints[q] == Some([])
    || exists k :: a < k < c <= |log| && prints[q].Some? && log[k] == VerifyCall(q, prints[q].value, false)
  }

  /** A search that stands at act i, all of whose calls missed, has missed every print before the next one. */
  lemma {:induction false} SearchedSoFar(n: Setup, log: seq<Act>, i: nat) returns (a: nat)
    requires LogOk(n, log) && i <= |log|
    requires Summary(log[..i]).running == Some(Identify) && StillSearching(Summary(log[..i]))
    requires NextPrint(Summary(log[..i])) <= |Summary(log[..i]).prints|
    ensures a < i && Accepted(Some(log[a]), 1)
    ensures AllMissed(log, a, i, Summary(log[..i]).prints, NextPrint(Summary(log[..i])))
    decreases i
  {
    hide LogOk, Summary;
    LastOf(log, i);
    if log[i - 1].Accept? {
      a := i - 1;
    } else {
      var p := Summary(log[..i]).prints;
      Before(n, log, i - 1);
      SummaryStep(log, i);
      a := SearchedSoFar(n, log, i - 1);
      assert p == Summary(log[..i - 1]).prints;
      MissedNext(log, a, i - 1, p, NextPrint(Summary(log[..i - 1])));
    }
  }

  lemma LastOf(log: seq<Act>, i: nat)
    requires i <= |log| && Summary(log[..i]).last.Some?
    ensures i > 0 && Summary(log[..i]).last == Some(log[i - 1])
  {
  }

  /** One more call, after empty prints. */
  lemma MissedNext(log: seq<Act>, a: nat, c: nat, prints: seq<Print>, from: nat)
    requires a < c < |log| && AllMissed(log, a, c, prints, from) && log[c].VerifyCall? && !log[c].hit
    requires log[c].index < |prints| && Skipped(prints, from, log[c].index) && prints[log[c].index] == Some(log[c].tmpl)
    ensures AllMissed(log, a, c + 1, prints, log[c].index + 1)
  {
    var d, to := c + 1, log[c].index + 1;
    forall q | 0 <= q < to ensures MissedPrint(log, a, d, prints, q) {
      if q < from {
        assert MissedPrint(log, a, c, prints, q);
      } else if q == log[c].index {
        assert log[c] == VerifyCall(q, prints[q].value, false);
      }
    }
  }

  /** An identification reports print k only right after the engine matched exactly that print of the gallery it was
      begun with; every print before it was empty, or was called for on the same frame and missed. */
  lemma FoundPrintIsFirst(n: Setup, log: seq<Act>, i: nat, k: nat) returns (a: nat, prints: seq<Print>)
    requires LogOk(n, log) && i < |log| && log[i] == IdentifyReport(Some(k))
    ensures Started(log, i, Identify, prints) && k < |prints| && prints[k].Some?
    ensures i > 0 && log[i - 1] == VerifyCall(k, prints[k].value, true) && 0 < |prints[k].value| <= 0x10_0000
    ensures a < i - 1 && Accepted(Some(log[a]), 1) && AllMissed(log, a, i - 1, prints, k)
  {
    hide LogOk, Summary, MissedPrint;
    Before(n, log, i);
    Before(n, log, i - 1);
    StartIs(log, i);
    SummaryStep(log, i);
    prints := Summary(log[..i]).prints;
    a := SearchedSoFar(n, log, i - 1);
    SkippedMissed(log, a, i - 1, prints, NextPrint(Summary(log[..i - 1])), k);
  }

  lemma SkippedMissed(log: seq<Act>, a: nat, c: nat, prints: seq<Print>, from: nat, to: nat)
    requires AllMissed(log, a, c, prints, from) && Skipped(prints, from, to)
    ensures AllMissed(log, a, c, prints, to)
  {
  }

  /** It reports no match only when every print of that gallery is well typed and empty or missed. */
  lemma NothingFound(n: Setup, log: seq<Act>, i: nat) returns (a: nat, prints: seq<Print>)
    requires LogOk(n, log) && i < |log| && log[i] == IdentifyReport(None)
    ensures Started(log, i, Identify, prints)
    ensures a < i && Accepted(Some(log[a]), 1) && AllMissed(log, a, i, prints, |prints|)
  {
    hide LogOk, Summary, MissedPrint;
    Before(n, log, i);
    StartIs(log, i);
    prints := Summary(log[..i]).prints;
    a := SearchedSoFar(n, log, i);
    SkippedMissed(log, a, i, prints, NextPrint(Summary(log[..i])), |prints|);
  }

  /** An identification ends with an error after its frame was accepted only at an ill-typed print of that gallery;
      every print before it was empty, or was called for on that frame and missed. */
  lemma SearchCutShort(n: Setup, log: seq<Act>, i: nat) returns (a: nat, prints: seq<Print>, k: nat)
    requires LogOk(n, log) && 0 < i < |log| && log[i] == OpComplete(Identify, Failed)
    requires log[i - 1].Accept? || log[i - 1].VerifyCall?
    ensures Started(log, i, Identify, prints) && k < |prints| && prints[k].None?
    ensures a < i && Accepted(Some(log[a]), 1) && AllMissed(log, a, i, prints, k)
  {
    hide LogOk, Summary, MissedPrint;
    Before(n, log, i);
    StartIs(log, i);
    var m := Summary(log[..i]);
    prints := m.prints;
    k :| IllTypedAt(prints, NextPrint(m), k);
    a := SearchedSoFar(n, log, i);
    SkippedMissed(log, a, i, prints, NextPrint(m), k);
  }

  // ---- enrollment progress ----

  /** Counts of the successful progress reports of the latest operation, in order. */
  function Successes(log: seq<Act>): seq<nat> {
    if log == [] then []
    else
      var rest, a := Successes(log[..|log| - 1]), log[|log| - 1];
      if a.OpStart? then [] else if a.Progress? && !a.retry then rest + [a.count] else rest
  }

  function OneTo(n: nat): seq<nat> { seq(n, i requires 0 <= i => i + 1) }

  /** A frame the engine has just kept leaves the operation waiting for its progress report. */
  predicate Pending(m: Seen) {
    KeptFrame(m.last) ==> m.control == Ended && m.running == Some(Enroll) && m.kept > 0
  }

  /** Kept frames already reported. */
  function Reported(m: Seen): nat {
    if KeptFrame(m.last) && m.kept > 0 then m.kept - 1 else m.kept
  }

  lemma PendingNext(n: Setup, m: Seen, a: Act)
    requires Allowed(n, m, a) && Pending(m) && m.kept <= STAGES
    ensures Pending(Note(m, a)) && Note(m, a).kept <= STAGES
    ensures Reported(Note(m, a))
            == if a.OpStart? then 0 else if a.Progress? && !a.retry then Reported(m) + 1 else Reported(m)
    ensures a.Progress? && !a.retry ==> a.count == Reported(m) + 1
    ensures KeptFrame(m.last) ==> a == Progress(m.kept, false)
  {
  }

  ghost predicate Counted(log: seq<Act>) {
    Summary(log).kept <= STAGES && Pending(Summary(log)) && Successes(log) == OneTo(Reported(Summary(log)))
  }

  lemma CountedNext(n: Setup, rest: seq<Act>, a: Act)
    requires LogOk(n, rest + [a]) && Counted(rest)
    ensures Counted(rest + [a])
  {
    hide LogOk, Summary, Pending, Note, Reported, KeptFrame, Allowed;
    Snoc(n, rest, a);
    PendingNext(n, Summary(rest), a);
    var r := Reported(Summary(rest));
    assert OneTo(r) + [r + 1] == OneTo(r + 1);
    assert (rest + [a])[..|rest|] == rest;
  }

  lemma CountedEmpty()
    ensures Counted([])
  {
  }

  /** Successful reports carry 1, 2, 3, ... without gap, up to the number of frames kept, which never exceeds 18; a
      frame that was kept but not yet reported can only be the last act. */
  lemma {:induction false} ProgressCounts(n: Setup, log: seq<Act>)
    requires LogOk(n, log)
    ensures Counted(log)
  {
    hide Counted, LogOk, Summary;
    if log == [] {
      CountedEmpty();
    } else {
      var rest, a := log[..|log| - 1], log[|log| - 1];
      Snoc(n, rest, a);
      assert rest + [a] == log;
      ProgressCounts(n, rest);
      CountedNext(n, rest, a);
    }
  }

  lemma PrefixOk(n: Setup, log: seq<Act>, i: nat)
    requires LogOk(n, log) && i <= |log|
    ensures LogOk(n, log[..i])
  {
    hide Allowed, Summary;
    forall k | 0 <= k < i ensures Allowed(n, Summary(log[..i][..k]), log[..i][k]) { assert log[..i][..k] == log[..k]; }
  }

  /** A retry report repeats the number of successes so far. */
  lemma RetryRepeats(n: Setup, log: seq<Act>, i: nat)
    requires LogOk(n, log) && i < |log| && log[i].Progress? && log[i].retry
    ensures log[i].count == |Successes(log[..i])|
  {
    hide LogOk, Summary, Successes;
    Before(n, log, i);
    PrefixOk(n, log, i);
    ProgressCounts(n, log[..i]);
  }

  /** A kept frame is reported at once, and then the template is committed exactly when the engine reported
      completion or the frame was the eighteenth; otherwise the next scan starts. */
  lemma CommitExactlyWhenDue(n: Setup, log: seq<Act>, i: nat)
    requires LogOk(n, log) && i + 2 < |log| && log[i].Update? && log[i].status != 2
    ensures log[i + 1] == Progress(Summary(log[..i]).kept + 1, false)
    ensures log[i + 2].Commit? <==> log[i].status == 0 || Summary(log[..i]).kept + 1 == 18
    ensures log[i + 2].Commit? || log[i + 2] == ScanStart
  {
    hide LogOk, Summary;
    Before(n, log, i);
    Before(n, log, i + 1);
    Before(n, log, i + 2);
  }

  /** Between events no scan has just ended. */
  lemma BetweenEvents(s: Dev)
    requires Inv(s)
    ensures LogOk(SetupOf(s), s.log) && Summary(s.log).control != Ended
  {
    hide LogOk, Summary;
  }

  /** Between events a kept frame has had its report and what follows it. */
  lemma KeptIsFollowed(s: Dev, i: nat)
    requires Inv(s) && i < |s.log| && s.log[i].Update? && s.log[i].status != 2
    ensures i + 2 < |s.log|
  {
    hide LogOk, Summary, Inv, Allowed, Note;
    BetweenEvents(s);
    var n, log := SetupOf(s), s.log;
    Before(n, log, i);
    assert log[..|log|] == log;
    SummaryStep(log, i + 1);
    KeptStands(n, Summary(log[..i]), log[i]);
    if i + 1 < |log| {
      Before(n, log, i + 1);
      SummaryStep(log, i + 2);
      ReportStands(n, Summary(log[..i]), log[i], log[i + 1]);
    }
  }

  lemma KeptStands(n: Setup, m: Seen, a: Act)
    requires Allowed(n, m, a) && a.Update?
    ensures Note(m, a).control == Ended
  {
  }

  lemma ReportStands(n: Setup, m: Seen, a: Act, b: Act)
    requires Allowed(n, m, a) && a.Update? && a.status != 2 && Allowed(n, Note(m, a), b)
    ensures Note(Note(m, a), b).control == Ended
  {
  }

  // ---- every end of a scan is resolved ----

  predicate IsControl(a: Act) { a.OpStart? || a.OpComplete? || a.ScanStart? || a.LiftSeen? || a.ScanFailed? }

  predicate IsEnd(a: Act) { a.LiftSeen? || a.ScanFailed? }

  lemma SummaryStep(log: seq<Act>, j: nat)
    requires 0 < j <= |log|
    ensures Summary(log[..j]) == Note(Summary(log[..j - 1]), log[j - 1])
  {
    assert log[..j][..j - 1] == log[..j - 1];
  }

  /** No control act strictly between i and j. */
  predicate NextControl(log: seq<Act>, i: nat, j: nat) {
    i < j <= |log| && IsControl(log[i]) && forall k :: i < k < j ==> !IsControl(log[k])
  }

  /** Where control stands, and for whom, changes only at control acts. */
  lemma {:induction false} ControlStands(log: seq<Act>, i: nat, j: nat)
    requires NextControl(log, i, j)
    ensures Summary(log[..j]).control == Summary(log[..i + 1]).control
    ensures Summary(log[..j]).running == Summary(log[..i + 1]).running
    decreases j
  {
    hide Summary;
    if j > i + 1 {
      SummaryStep(log, j);
      ControlStands(log, i, j - 1);
    }
  }

  /** The next control act after a scan's end is one new scan, or the completion of the operation that was running,
      and never of another kind. */
  lemma EndIsResolved(n: Setup, log: seq<Act>, i: nat, j: nat)
    requires LogOk(n, log) && j < |log| && NextControl(log, i, j) && IsEnd(log[i]) && IsControl(log[j])
    ensures log[j].ScanStart? || (log[j].OpComplete? && Summary(log[..i]).running == Some(log[j].kind))
    ensures log[i].ScanFailed? && j == i + 1 ==> log[j].OpComplete?
  {
    hide LogOk, Summary;
    ControlStands(log, i, j);
    SummaryStep(log, i + 1);
    Before(n, log, j);
  }

  /** Never both: a scan that is started next ends before anything else is completed, and after a completion nothing
      happens before a new operation begins. */
  lemma ResolvedOnce(n: Setup, log: seq<Act>, j: nat, k: nat)
    requires LogOk(n, log) && j < |log| && k < |log| && NextControl(log, j, k) && IsControl(log[k])
    ensures log[j].ScanStart? ==> IsEnd(log[k])
    ensures log[j].OpComplete? ==> log[k].OpStart?
  {
    hide LogOk, Summary;
    ControlStands(log, j, k);
    SummaryStep(log, j + 1);
    Before(n, log, k);
  }

  /** Between events no end of a scan is left unresolved. */
  lemma NoEndLeftOpen(s: Dev, i: nat)
    requires Inv(s) && i < |s.log| && IsEnd(s.log[i])
    ensures exists j :: i < j < |s.log| && IsControl(s.log[j])
  {
    hide LogOk, Summary;
    assert s.log[..|s.log|] == s.log;
    if forall j :: i < j < |s.log| ==> !IsControl(s.log[j]) {
      ControlStands(s.log, i, |s.log|);
      SummaryStep(s.log, i + 1);
    }
  }

  // ---- the legacy scan, from its own states ----

  /** A legacy frame passes exactly when the read was whole and its two quality bytes are not both zero; it is then
      the new frame, corrected by the background if there is one, and stretched. A short read never lets the previous
      frame through. */
  lemma LegacyCapture(s: Dev, data: seq<u8>)
    requires s.Buffers()
    ensures var r := CaptureLegacy(s, data);
            && r.phase == Scanning(LEGACY_LIFT_DELAY) && r.wire == s.wire
            && (r.scanOk <==> |data| >= s.size + 2 && !(data[0] == 0 && data[1] == 0))
            && (r.scanOk ==>
                  var image := data[2..s.size + 2];
                  r.frame[..s.size] == Stretch(if s.hasBackground && s.useFpn then Fpn(image, s.background) else image))
  {
    hide Submit, Stretch, Fpn;
    var s' := if |data| >= s.size + 2 then
                s.(frame := data[2..s.size + 2] + data[..2]).Add(Captured(data[2..s.size + 2]))
              else
                s.(frame := s.frame[..s.size] + [0, 0]);
    Submitted(s');
    assert s'.frame[..s.size] == if |data| >= s.size + 2 then data[2..s.size + 2] else s.frame[..s.size];
  }

  /** SCAN_SUBMIT on the frame buffer as it stands. */
  lemma Submitted(s: Dev)
    requires s.Buffers()
    ensures var r, n := Submit(s), s.size;
            && r == s.(scanOk := r.scanOk, frame := r.frame)
            && (r.scanOk <==> !(s.frame[n] == 0 && s.frame[n + 1] == 0))
            && (r.scanOk ==>
                  var image := s.frame[..n];
                  r.frame[..n] == Stretch(if s.hasBackground && s.useFpn then Fpn(image, s.background) else image))
  {
    hide Stretch, Fpn;
  }

  // ---- identify ----

  /** Print i matches: well typed, non-empty, not too long for the engine, and the engine says so. */
  predicate Hit(gallery: seq<Print>, verify: nat -> bool, i: nat)
    requires i < |gallery|
  {
    gallery[i].Some? && EngineVerify(gallery[i].value, verify(i))
  }

  /** Prints from..to are well typed and none of them matches. */
  predicate NoHits(gallery: seq<Print>, verify: nat -> bool, from: nat, to: nat)
    requires from <= to <= |gallery|
  {
    forall k :: from <= k < to ==> gallery[k].Some? && !Hit(gallery, verify, k)
  }

  lemma EmptyNeverHits(gallery: seq<Print>, verify: nat -> bool, i: nat)
    requires i < |gallery| && gallery[i] == Some([])
    ensures !Hit(gallery, verify, i)
  {
  }

  /** The gallery search finds the first print that matches, and is cut short exactly by an ill-typed print that
      precedes any match. */
  lemma {:induction false} SearchIsFirstHit(gallery: seq<Print>, verify: nat -> bool, i: nat)
    requires i <= |gallery|
    ensures match Search(gallery, verify, i).0
            case Match(k) => i <= k < |gallery| && Hit(gallery, verify, k) && NoHits(gallery, verify, i, k)
            case NoMatch => NoHits(gallery, verify, i, |gallery|)
            case Invalid => exists k :: i <= k < |gallery| && gallery[k].None? && NoHits(gallery, verify, i, k)
    decreases |gallery| - i
  {
    hide EngineVerify;
    if i < |gallery| && gallery[i].Some? {
      SearchIsFirstHit(gallery, verify, i + 1);
      if gallery[i].value == [] { EmptyNeverHits(gallery, verify, i); }
      var rest := Search(gallery, verify, i + 1).0;
      if rest.Invalid? && !Hit(gallery, verify, i) {
        var k :| i + 1 <= k < |gallery| && gallery[k].None? && NoHits(gallery, verify, i + 1, k);
        assert NoHits(gallery, verify, i, k);
      }
    } else if i < |gallery| {
      assert NoHits(gallery, verify, i, i);
    }
  }

  /** The same, read the other way: each of the three results occurs exactly when it should. */
  lemma SearchExactly(g: seq<Print>, v: nat -> bool)
    ensures forall k: nat :: Search(g, v, 0).0 == Match(k) <==> k < |g| && Hit(g, v, k) && NoHits(g, v, 0, k)
    ensures Search(g, v, 0).0 == NoMatch <==> NoHits(g, v, 0, |g|)
    ensures Search(g, v, 0).0 == Invalid <==> exists k :: 0 <= k < |g| && g[k].None? && NoHits(g, v, 0, k)
  {
    SearchIsFirstHit(g, v, 0);
    hide Search, EngineVerify;
  }

  /** What an identification reports once its frame is accepted, for every gallery: print k exactly when k is the
      first match and no ill-typed print precedes it; no match exactly when all prints are well typed and none
      matches; an error and no report exactly when an ill-typed print precedes any match. */
  lemma IdentifyReports(s: Dev, a: Answers)
    ensures var g, v, made := s.gallery, a.verify, IdentifyDone(s, a).log;
            var before := s.log + Search(g, v, 0).1;
            && (forall k: nat ::
                  made == before + Ending(Some(k), s.Kind())
                  <==> (k < |g| && Hit(g, v, k) && NoHits(g, v, 0, k)))
            && (made == before + Ending(None, s.Kind()) <==> NoHits(g, v, 0, |g|))
            && (made == before + [OpComplete(s.Kind(), Failed)]
                <==> (exists k :: 0 <= k < |g| && g[k].None? && NoHits(g, v, 0, k)))
  {
    SearchExactly(s.gallery, a.verify);
    IdentifyLog(s, a);
    hide Search, IdentifyDone, EngineVerify, Hit, NoHits;
    var before := s.log + Search(s.gallery, a.verify, 0).1;
    TailsDiffer(before, s.Kind());
  }

  /** How an identification that reports ends. */
  function Ending(found: Option<nat>, kind: Kind): seq<Act> { [IdentifyReport(found), OpComplete(kind, Done)] }

  /** The three ways to end are told apart by what the log holds after the search. */
  lemma TailsDiffer(before: seq<Act>, kind: Kind)
    ensures forall f, g :: before + Ending(f, kind) == before + Ending(g, kind) ==> f == g
    ensures forall f :: before + Ending(f, kind) != before + [OpComplete(kind, Failed)]
  {
    forall f, g | before + Ending(f, kind) == before + Ending(g, kind) ensures f == g {
      var x, y := before + Ending(f, kind), before + Ending(g, kind);
      assert x[|before|] == y[|before|];
    }
    forall f ensures before + Ending(f, kind) != before + [OpComplete(kind, Failed)] {
      assert |before + Ending(f, kind)| != |before + [OpComplete(kind, Failed)]|;
    }
  }

  lemma IdentifyLog(s: Dev, a: Answers)
    ensures IdentifyDone(s, a).log == s.log + Search(s.gallery, a.verify, 0).1
                                      + match Search(s.gallery, a.verify, 0).0
                                        case Match(k) => Ending(Some(k), s.Kind())
                                        case NoMatch => Ending(None, s.Kind())
                                        case Invalid => [OpComplete(s.Kind(), Failed)]
  {
    hide Search;
    var calls := Search(s.gallery, a.verify, 0).1;
    assert forall x: Act, y: Act :: s.log + calls + [x] + [y] == s.log + calls + [x, y];
  }
}
