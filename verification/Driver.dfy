/** The driver object of src/ft9201.c: its fields, updated in place by the dispatcher, the transfer callbacks and the
    libfprint entry points. Every method does to the object what ScanSpec says happens to its value, so that the
    laws proved there hold of every sequence of calls. */
module Driver {
  import opened Bytes
  import opened Pixels
  import opened ScanSpec
  import opened Wire

  lemma Append(made: seq<Act>, a: Act, rest: seq<Act>, before: seq<Act>)
    ensures made + ([a] + rest) == made + [a] + rest
    ensures before + made + [a] == before + (made + [a])
  {
  }

  class Ft9201 {
    const width: u8
    const height: u8
    const engineOk: bool
    const useFpn: bool
    /** A frame and two quality bytes. */
    const imageBuf: array<u8>
    const backgroundBuf: array<u8>
    var hasBackground: bool
    var scanOk: bool
    var isVerify: bool
    var isIdentify: bool
    var enrollDone: nat
    var tmplBlob: seq<u8>
    var gallery: seq<Print>
    var phase: Phase
    /** USB transfers submitted, and engine calls and reports made. */
    var wire: seq<Usb>
    var log: seq<Act>

    function Size(): nat { width as int * height as int }

    ghost predicate Valid() {
      imageBuf.Length == Size() + 2 && backgroundBuf.Length == Size() && imageBuf != backgroundBuf
    }

    ghost function View(): (s: Dev)
      requires Valid()
      reads this, imageBuf, backgroundBuf
      ensures s.Buffers()
    {
      Dev(Size(), engineOk, useFpn, imageBuf[..], backgroundBuf[..], hasBackground, scanOk,
          isVerify, isIdentify, enrollDone, tmplBlob, gallery, phase, wire, log)
    }

    constructor (width: u8, height: u8, engineOk: bool, useFpn: bool, opening: seq<Usb>)
      ensures Valid() && View() == Opened(width, height, engineOk, useFpn, opening)
      ensures fresh(imageBuf) && fresh(backgroundBuf)
    {
      this.width, this.height, this.engineOk, this.useFpn := width, height, engineOk, useFpn;
      var n := width as int * height as int;
      imageBuf := new u8[n + 2](_ => 0);
      backgroundBuf := new u8[n](_ => 0);
      hasBackground, scanOk, isVerify, isIdentify, enrollDone := false, false, false, false, 0;
      tmplBlob, gallery, phase, wire, log := [], [], Idle, opening, [];
      new;
      assert imageBuf[..] == seq(n + 2, _ => 0) && backgroundBuf[..] == seq(n, _ => 0);
    }

    method Note(a: Act)
      requires Valid()
      modifies this`log
      ensures View() == old(View()).Add(a)
    {
      log := log + [a];
    }

    // ---- dispatcher ----

    /** State SCAN_SUBMIT. */
    method SubmitImage()
      requires Valid()
      modifies this`scanOk, imageBuf
      ensures View() == Submit(old(View()))
    {
      hide Fpn, Stretch;
      var n := Size();
      ghost var frame := imageBuf[..n];
      scanOk := !(imageBuf[n] == 0 && imageBuf[n + 1] == 0);
      if scanOk {
        if hasBackground && useFpn {
          CorrectInPlace(imageBuf, backgroundBuf[..]);
          assert imageBuf[..n] == Fpn(frame, backgroundBuf[..]);
        }
        StretchInPlace(imageBuf, n);
      }
    }

    /** scan_ssm_run_state, entered at state st. */
    method RunState(st: nat)
      requires Valid()
      modifies this`scanOk, this`phase, this`wire, imageBuf
      ensures View() == Enter(old(View()), st)
    {
      hide Submit, Command;
      if st == SUBMIT {
        SubmitImage();
        phase := Scanning(SUBMIT + 1);
      } else {
        phase := Scanning(st);
        var c := Command(st, Size());
        if c.Some? { wire := wire + [c.value]; }
      }
    }

    method BeginScan()
      requires Valid()
      modifies this`scanOk, this`phase, this`wire, this`log, imageBuf
      ensures View() == StartScan(old(View()))
    {
      hide Enter;
      Note(ScanStart);
      RunState(WAIT_DELAY);
    }

    function Running(): (k: Kind)
      reads this`isIdentify, this`isVerify
    {
      if isIdentify then Identify else if isVerify then Verify else Enroll
    }

    /** fpi_device_{enroll,verify,identify}_complete. */
    method Finish(result: Result)
      requires Valid()
      modifies this`phase, this`log
      ensures View() == Complete(old(View()), result)
    {
      phase := Idle;
      Note(OpComplete(Running(), result));
    }

    // ---- scan_ssm_complete ----

    method ScanError(retry: bool)
      requires Valid()
      modifies this`phase, this`log
      ensures View() == CompleteWithError(old(View()), retry)
    {
      hide Complete;
      if isIdentify && retry {
        Note(IdentifyRetry);
        Finish(Done);
      } else {
        Finish(Failed);
      }
    }

    method RetryScan()
      requires Valid()
      modifies this`scanOk, this`phase, this`wire, this`log, imageBuf
      ensures View() == Retry(old(View()))
    {
      hide StartScan, Complete;
      if isIdentify {
        Note(IdentifyRetry);
        Finish(Done);
      } else {
        if !isVerify { Note(Progress(enrollDone, true)); }
        BeginScan();
      }
    }

    /** The loop over the enrolled prints. */
    method SearchPrints(a: Answers) returns (found: Found)
      requires Valid()
      modifies this`log
      ensures (found, log) == (Search(gallery, a.verify, 0).0, old(log) + Search(gallery, a.verify, 0).1)
    {
      hide EngineVerify;
      ghost var made: seq<Act> := [];
      ghost var whole := Search(gallery, a.verify, 0);
      assert [] + whole.1 == whole.1 && log == log + made;
      for i := 0 to |gallery|
        invariant log == old(log) + made
        invariant whole == (Search(gallery, a.verify, i).0, made + Search(gallery, a.verify, i).1)
      {
        assert made + [] == made;
        if gallery[i].None? { return Invalid; }
        var t := gallery[i].value;
        if |t| > 0 {
          var hit := EngineVerify(t, a.verify(i));
          Append(made, VerifyCall(i, t, hit), Search(gallery, a.verify, i + 1).1, old(log));
          Note(VerifyCall(i, t, hit));
          made := made + [VerifyCall(i, t, hit)];
          if hit { return Match(i); }
        }
      }
      assert made + [] == made;
      found := NoMatch;
    }

    method IdentifyPrints(a: Answers)
      requires Valid()
      modifies this`phase, this`log
      ensures View() == IdentifyDone(old(View()), a)
    {
      hide Complete, Search;
      var found := SearchPrints(a);
      match found
      case Invalid => Finish(Failed);
      case NoMatch =>
        Note(IdentifyReport(None));
        Finish(Done);
      case Match(i) =>
        Note(IdentifyReport(Some(i)));
        Finish(Done);
    }

    method VerifyTemplate(a: Answers)
      requires Valid()
      modifies this`phase, this`log
      ensures View() == VerifyDone(old(View()), a)
    {
      hide Complete, EngineVerify;
      var hit := EngineVerify(tmplBlob, a.verify(0));
      Note(VerifyCall(0, tmplBlob, hit));
      Note(VerifyReport(hit));
      Finish(Done);
    }

    /** The template is complete: commit it and report. */
    method CommitTemplate(blob: Option<seq<u8>>)
      requires Valid()
      modifies this`phase, this`log
      ensures View() == Complete(old(View()).Add(Commit(blob)), if blob.None? then Failed else Template(blob.value))
    {
      hide Complete;
      Note(Commit(blob));
      Finish(if blob.None? then Failed else Template(blob.value));
    }

    /** The engine has kept the frame: report progress, then scan on or commit. */
    method Count()
      requires Valid()
      modifies this`enrollDone
      ensures View() == old(View()).(enrollDone := old(View()).enrollDone + 1) && enrollDone == View().enrollDone
    {
      enrollDone := enrollDone + 1;
    }

    method KeepFrame(st: nat, blob: Option<seq<u8>>)
      requires Valid()
      modifies this`scanOk, this`phase, this`wire, this`log, this`enrollDone, imageBuf
      ensures View() == FrameKept(old(View()), st, blob)
    {
      hide StartScan, Complete, Ft9201.View;
      Count();
      Note(Progress(enrollDone, false));
      if enrollDone < STAGES && st != 0 {
        BeginScan();
      } else {
        CommitTemplate(blob);
      }
    }

    method EnrollFrame(a: Answers)
      requires Valid()
      modifies this`scanOk, this`phase, this`wire, this`log, this`enrollDone, imageBuf
      ensures View() == EnrollStep(old(View()), a)
    {
      hide StartScan, UpdateStatus, FrameKept;
      var st := UpdateStatus(a);
      Note(Update(st));
      if st == 2 {
        Note(Progress(enrollDone, true));
        BeginScan();
      } else {
        KeepFrame(st, a.commit);
      }
    }

    method ScanComplete(a: Answers)
      requires Valid()
      modifies this`scanOk, this`phase, this`wire, this`log, this`enrollDone, imageBuf
      ensures View() == ScanDone(old(View()), a)
    {
      hide Retry, Complete, IdentifyDone, VerifyDone, EnrollStep;
      if !scanOk {
        RetryScan();
        return;
      }
      if !engineOk {
        Finish(Failed);
        return;
      }
      Note(Accept(imageBuf[..Size()], if isVerify || isIdentify then 1 else 4, a.accept));
      if a.accept != 0 {
        RetryScan();
      } else if isIdentify {
        IdentifyPrints(a);
      } else if isVerify {
        VerifyTemplate(a);
      } else {
        EnrollFrame(a);
      }
    }

    // ---- transfer callbacks ----

    /** image_9338_cb without a transfer error. */
    method CaptureCallback(data: seq<u8>)
      requires Valid()
      modifies this`scanOk, this`phase, this`wire, this`log, imageBuf
      ensures View() == Capture(old(View()), data)
    {
      hide Enter, CompleteWithError;
      var n := Size();
      if |data| < n {
        Note(ScanFailed);
        ScanError(false);
        return;
      }
      CopyInto(imageBuf, data[..n]);
      scanOk := true;
      Note(Captured(data[..n]));
      RunState(LIFT_DELAY);
    }

    /** scan_bg_image_cb; None for a transfer error. */
    method BackgroundCallback(data: Option<seq<u8>>)
      requires Valid()
      modifies this`scanOk, this`phase, this`wire, this`log, this`hasBackground, imageBuf, backgroundBuf
      ensures View() == if data.Some? then CaptureBackground(old(View()), data.value) else DropBackground(old(View()))
    {
      hide Enter;
      var n := Size();
      hasBackground := data.Some? && |data.value| >= n + 2;
      if hasBackground {
        CopyInto(backgroundBuf, data.value[2..n + 2]);
        assert backgroundBuf[..] == data.value[2..n + 2];
        Note(Background(Some(data.value[2..n + 2])));
      } else {
        Note(Background(None));
      }
      RunState(BG_READ + 1);
    }

    /** scan_image_cb without a transfer error. */
    method ImageCallback(data: seq<u8>)
      requires Valid()
      modifies this`scanOk, this`phase, this`wire, this`log, imageBuf
      ensures View() == CaptureLegacy(old(View()), data)
    {
      hide Enter;
      var n := Size();
      if |data| >= n + 2 {
        imageBuf[n], imageBuf[n + 1] := data[0], data[1];
        assert imageBuf[n..] == data[..2];
        CopyInto(imageBuf, data[2..n + 2]);
        Note(Captured(data[2..n + 2]));
      } else {
        imageBuf[n], imageBuf[n + 1] := 0, 0;
        assert imageBuf[..] == old(imageBuf[..n]) + [0, 0];
      }
      RunState(SUBMIT);
    }

    /** Completion of the transfer state st had submitted. */
    method Callback(st: nat, data: seq<u8>, a: Answers)
      requires Valid()
      modifies this, imageBuf, backgroundBuf
      ensures View() == React(old(View()), st, data, a)
    {
      hide Enter, ScanDone, Capture, CaptureBackground, CaptureLegacy;
      var first := Byte0(data);
      if st == WAIT_FINGER || st == LEGACY_WAIT_FINGER {
        var present: u8 := if st == WAIT_FINGER then 1 else 0xa0;
        if first == present {
          Note(FingerSeen);
          RunState(st + 1);
        } else {
          RunState(st - 1);
        }
      } else if st == CAPTURE_READ {
        CaptureCallback(data);
      } else if st == WAIT_LIFT || st == LEGACY_WAIT_LIFT {
        if (st == WAIT_LIFT && first == 0) || (st == LEGACY_WAIT_LIFT && first != 0xa0) {
          Note(LiftSeen);
          ScanComplete(a);
        } else {
          RunState(st - 1);
        }
      } else if st == BG_READ {
        BackgroundCallback(Some(data));
      } else if st == READ_IMAGE {
        ImageCallback(data);
      } else {
        RunState(st + 1);
      }
    }

    // ---- libfprint entry points ----

    method DevEnroll()
      requires Valid()
      modifies this, imageBuf
      ensures View() == StartEnroll(old(View()))
    {
      hide StartScan;
      isVerify, isIdentify, enrollDone, hasBackground := false, false, 0, false;
      Note(OpStart(Enroll, []));
      if engineOk { Note(Begin); }
      BeginScan();
    }

    method DevVerify(stored: Print)
      requires Valid()
      modifies this, imageBuf
      ensures View() == StartVerify(old(View()), stored)
    {
      hide StartScan;
      isIdentify := false;
      Note(OpStart(Verify, [stored]));
      if stored.None? {
        Note(OpComplete(Verify, Failed));
        return;
      }
      tmplBlob := stored.value;
      isVerify, hasBackground := true, false;
      BeginScan();
    }

    method DevIdentify(prints: seq<Print>)
      requires Valid()
      modifies this, imageBuf
      ensures View() == StartIdentify(old(View()), prints)
    {
      hide StartScan;
      isVerify, isIdentify, hasBackground, gallery := false, true, false, prints;
      Note(OpStart(Identify, prints));
      BeginScan();
    }

    // ---- one event, and runs ----

    method Handle(e: Event)
      requires Valid()
      modifies this, imageBuf, backgroundBuf
      ensures View() == Step(old(View()), e)
    {
      hide Enter, React, DropBackground, StartEnroll, StartVerify, StartIdentify, CompleteWithError, Command;
      var pending := phase.Scanning? && phase.state < NUM_STATES && Command(phase.state, Size()).Some?;
      match e
      case BeginEnroll => if phase.Idle? { DevEnroll(); }
      case BeginVerify(stored) => if phase.Idle? { DevVerify(stored); }
      case BeginIdentify(prints) => if phase.Idle? { DevIdentify(prints); }
      case Tick => if phase.Scanning? && phase.state < NUM_STATES && !pending { RunState(phase.state + 1); }
      case TransferFailed(retry) =>
        if pending {
          if phase.state == BG_READ {
            BackgroundCallback(None);
          } else {
            Note(ScanFailed);
            ScanError(retry);
          }
        }
      case Transferred(data, a) => if pending { Callback(phase.state, data, a); }
    }

    /** Any sequence of events: the object follows the run of its value. */
    method Run(events: seq<Event>)
      requires Valid()
      modifies this, imageBuf, backgroundBuf
      ensures View() == RunFrom(old(View()), events)
    {
      hide Step;
      for i := 0 to |events|
        invariant RunFrom(View(), events[i..]) == RunFrom(old(View()), events)
      {
        assert events[i..][0] == events[i] && events[i..][1..] == events[i + 1..];
        Handle(events[i]);
      }
    }
  }
}
