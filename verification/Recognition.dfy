/** The driver and the engine wrapper together: the driver's engine calls go to the wrapper, the wrapper's answers come
    from the vendor library, and a template finds its way back from an enrollment into a later verification. */
module Recognition {
  import opened Bytes
  import opened ScanSpec
  import opened ScanTheory
  import opened ScanSenses
  import opened Engine
  import ScanLaws
  import Driver

  // ---- what the library does when the driver calls ----

  datatype Matching = Matching(calls: seq<Call>, verdict: u8)

  /** The library's behaviour in whichever engine calls an event leads to; print k of a gallery is its own call. */
  datatype Library = Library(begin: seq<Call>, accept: seq<Call>, acceptHr: u32, sample: Sample,
                             commit: seq<Call>, commitHr: u32, memory: bool, verify: nat -> Matching)

  function Committed(l: Library): (blob: Option<seq<u8>>)
    ensures blob.None? || Admissible(blob)
  {
    if l.commitHr == 0 && l.memory then LastAdded(l.commit) else None
  }

  /** What the driver is told. */
  function Told(l: Library): Answers {
    Answers(l.acceptHr, l.sample.updateHr, l.sample.updateRej, l.sample.statusHr, Committed(l),
            (k: nat) => l.verify(k).verdict != 0)
  }

  datatype Happening = Happening(event: Event, library: Library) {
    function Joined(): Event {
      match event
      case Transferred(data, _) => Transferred(data, Told(library))
      case _ => event
    }
  }

  // ---- the driver logs the answers it is given ----

  /** Every act of a step that carries an answer carries the one given. */
  lemma StepAnswered(s: Dev, e: Event, ans: Answers)
    requires s.Buffers() && (e.Transferred? ==> ans == e.answers)
    ensures s.log <= Step(s, e).log
    ensures forall i :: |s.log| <= i < |Step(s, e).log| ==> AnsweredBy(Step(s, e).log[i], ans)
  {
    hide Step, Own, Sensed;
    StepAdds(s, e, ans);
    var r, sensed := Step(s, e), Sensed(s, e);
    forall i | |s.log| <= i < |r.log| ensures AnsweredBy(r.log[i], ans) {
      if i < |s.log| + |sensed| {
        assert r.log[i] == (s.log + sensed)[i];
        SensedAre(s, e, r.log[i], ans);
      } else {
        OwnIs(r.log[i], ans);
      }
    }
  }

  // ---- the wrapper gives those answers ----

  /** The replies a library gets that makes these callbacks while the template is under test. */
  ghost predicate UnderTest(tmpl: seq<u8>, calls: seq<Call>, replies: seq<Reply>) {
    exists id: Identity :: RepliesFrom(Store(tmpl, id, true), calls, replies)
  }

  /** The store, started at s, replies so. */
  predicate RepliesFrom(s: Store, calls: seq<Call>, replies: seq<Reply>) {
    |replies| == |calls|
    && forall k :: 0 <= k < |calls| ==> replies[k] == Answer(Settled(s, calls[..k]), calls[k])
  }

  /** Act a, answered by the library, went to the wrapper, which replied so to its callbacks. */
  ghost predicate PlayedAct(a: Act, l: Library, replies: seq<Reply>) {
    && AnsweredBy(a, Told(l))
    && (a.VerifyCall? && 0 < |a.tmpl| <= MAX_TEMPLATE ==> UnderTest(a.tmpl, l.verify(a.index).calls, replies))
  }

  method PlayVerify(w: Wrapper, k: nat, tmpl: seq<u8>, m: Matching) returns (hit: bool, replies: seq<Reply>)
    requires w.Valid()
    modifies w, w.recTemplate, w.recIdentity
    ensures w.Valid() && hit == EngineVerify(tmpl, m.verdict != 0)
    ensures 0 < |tmpl| <= MAX_TEMPLATE ==> UnderTest(tmpl, m.calls, replies)
  {
    hide Settled, Answer;
    ghost var id := w.View().identity;
    hit, replies := w.Verify(tmpl, m.calls, m.verdict);
    assert 0 < |tmpl| <= MAX_TEMPLATE ==> RepliesFrom(Store(tmpl, id, true), m.calls, replies);
  }

  /** The engine call that an act of the driver stands for, made on the wrapper: its answer is the one in the log. */
  method PlayAct(w: Wrapper, a: Act, l: Library) returns (answered: Act, replies: seq<Reply>)
    requires w.Valid() && AnsweredBy(a, Told(l))
    modifies w, w.recTemplate, w.recIdentity
    ensures w.Valid() && answered == a && PlayedAct(a, l, replies)
  {
    hide Settled, Answer, LastAdded, UnderTest;
    answered, replies := a, [];
    match a {
      case Begin =>
        replies := w.EnrollBegin(l.begin);
      case Accept(frame, purpose, _) =>
        replies := w.Accept(l.accept);
        answered := Accept(frame, purpose, l.acceptHr);
      case Update(_) =>
        var u := l.sample;
        var status, _ := w.EnrollUpdate(u.update, u.updateHr, u.updateRej, u.status, u.statusHr);
        answered := Update(status);
      case Commit(_) =>
        var rc, out;
        rc, out, replies := w.EnrollCommit(l.commit, l.commitHr, l.memory);
        answered := Commit(if rc == 0 then Some(out) else None);
      case VerifyCall(k, tmpl, _) =>
        var hit;
        hit, replies := PlayVerify(w, k, tmpl, l.verify(k));
        answered := VerifyCall(k, tmpl, hit);
      case _ =>
    }
  }

  ghost predicate Played(log: seq<Act>, libs: seq<Library>, heard: seq<seq<Reply>>) {
    |libs| == |heard| == |log| && forall i :: 0 <= i < |log| ==> PlayedAct(log[i], libs[i], heard[i])
  }

  method PlayActs(w: Wrapper, acts: seq<Act>, l: Library) returns (heard: seq<seq<Reply>>)
    requires w.Valid() && forall a :: a in acts ==> AnsweredBy(a, Told(l))
    modifies w, w.recTemplate, w.recIdentity
    ensures w.Valid() && Played(acts, seq(|acts|, _ => l), heard)
  {
    hide AnsweredBy, PlayedAct;
    heard := [];
    for i := 0 to |acts|
      invariant w.Valid() && |heard| == i && forall k :: 0 <= k < i ==> PlayedAct(acts[k], l, heard[k])
    {
      assert acts[i] in acts;
      var _, replies := PlayAct(w, acts[i], l);
      heard := heard + [replies];
    }
  }

  lemma PlayedMore(log: seq<Act>, libs: seq<Library>, heard: seq<seq<Reply>>,
                   acts: seq<Act>, more: seq<Library>, replies: seq<seq<Reply>>)
    requires Played(log, libs, heard) && Played(acts, more, replies)
    ensures Played(log + acts, libs + more, heard + replies)
  {
    hide PlayedAct;
  }

  /** One event: the driver handles it, and its engine calls go to the wrapper. */
  method Happen(d: Driver.Ft9201, w: Wrapper, h: Happening) returns (libs: seq<Library>, heard: seq<seq<Reply>>)
    requires d.Valid() && w.Valid() && {d.imageBuf, d.backgroundBuf} !! {w.recTemplate, w.recIdentity}
    modifies d, d.imageBuf, d.backgroundBuf, w, w.recTemplate, w.recIdentity
    ensures d.Valid() && d.View() == Step(old(d.View()), h.Joined()) && w.Valid()
    ensures old(d.log) <= d.log && Played(d.log[|old(d.log)|..], libs, heard)
  {
    hide Step, AnsweredBy, PlayedAct;
    StepAnswered(d.View(), h.Joined(), Told(h.library));
    var n := |d.log|;
    d.Handle(h.Joined());
    var acts := d.log[n..];
    forall a | a in acts ensures AnsweredBy(a, Told(h.library)) {
      var i :| 0 <= i < |acts| && acts[i] == a;
      assert acts[i] == d.log[n + i];
    }
    heard := PlayActs(w, acts, h.library);
    libs := seq(|acts|, _ => h.library);
  }

  function Events(hs: seq<Happening>): (events: seq<Event>)
    ensures |events| == |hs|
  {
    seq(|hs|, i requires 0 <= i < |hs| => hs[i].Joined())
  }

  /** Open a device and let things happen to it, with this wrapper and library behind it. */
  method Serve(w: Wrapper, width: u8, height: u8, engineOk: bool, useFpn: bool, hs: seq<Happening>)
    returns (log: seq<Act>, libs: seq<Library>, heard: seq<seq<Reply>>)
    requires w.Valid()
    modifies w, w.recTemplate, w.recIdentity
    ensures w.Valid() && log == RunFrom(Opened(width, height, engineOk, useFpn, []), Events(hs)).log
    ensures LogOk(Setup(width as int * height as int, engineOk), log) && Played(log, libs, heard)
  {
    hide Step, RunFrom, Opened, LogOk, PlayedAct, Summary;
    var d := new Driver.Ft9201(width, height, engineOk, useFpn, []);
    ghost var s, events := d.View(), Events(hs);
    OpenedOk(width, height, engineOk, useFpn);
    libs, heard := [], [];
    for i := 0 to |hs|
      invariant d.Valid() && w.Valid() && fresh(d) && fresh(d.imageBuf) && fresh(d.backgroundBuf)
      invariant {d.imageBuf, d.backgroundBuf} !! {w.recTemplate, w.recIdentity}
      invariant RunFrom(d.View(), events[i..]) == RunFrom(s, events)
      invariant Inv(d.View()) && SetupOf(d.View()) == SetupOf(s)
      invariant Played(d.log, libs, heard)
    {
      RunStep(d.View(), events, i);
      StepOk(d.View(), events[i]);
      ghost var before := d.log;
      var more, replies := Happen(d, w, hs[i]);
      PlayedMore(before, libs, heard, d.log[|before|..], more, replies);
      assert before + d.log[|before|..] == d.log;
      libs, heard := libs + more, heard + replies;
    }
    RunNothing(d.View(), events);
    log := d.log;
  }

  lemma OpenedOk(width: u8, height: u8, engineOk: bool, useFpn: bool)
    ensures var s := Opened(width, height, engineOk, useFpn, []);
            Inv(s) && SetupOf(s) == Setup(width as int * height as int, engineOk) && s.log == []
  {
  }

  lemma RunStep(s: Dev, events: seq<Event>, i: nat)
    requires s.Buffers() && i < |events|
    ensures RunFrom(s, events[i..]) == RunFrom(Step(s, events[i]), events[i + 1..])
  {
    hide Step;
    assert events[i..][0] == events[i] && events[i..][1..] == events[i + 1..];
  }

  lemma RunNothing(s: Dev, events: seq<Event>)
    requires s.Buffers()
    ensures RunFrom(s, events[|events|..]) == s
  {
  }

  // ---- a template comes back ----

  /** Everywhere the library reads the record during this call it sees these bytes. */
  predicate ReadsOnly(calls: seq<Call>, replies: seq<Reply>, blob: seq<u8>) {
    |replies| == |calls|
    && forall k :: 0 <= k < |calls| && calls[k] == GetCurrentRecord
                   ==> replies[k].Record? && replies[k].template == blob
  }

  lemma UnderTestReads(blob: seq<u8>, calls: seq<Call>, replies: seq<Reply>)
    requires UnderTest(blob, calls, replies) && AddsNothing(calls)
    ensures ReadsOnly(calls, replies, blob)
  {
    hide Settled, LastAdded, LastIdentity;
    var id: Identity :| RepliesFrom(Store(blob, id, true), calls, replies);
    forall k | 0 <= k < |calls| && calls[k] == GetCurrentRecord
      ensures replies[k].Record? && replies[k].template == blob
    {
      VerifyReads(blob, id, calls, k);
    }
  }

  /** The template that an enrollment returns is the last record the library added in its commit. */
  lemma EnrolledIsCommitted(n: Setup, log: seq<Act>, libs: seq<Library>, heard: seq<seq<Reply>>, i: nat)
    requires LogOk(n, log) && Played(log, libs, heard) && i < |log| && log[i].OpComplete? && log[i].result.Template?
    ensures i > 0 && Some(log[i].result.blob) == LastAdded(libs[i - 1].commit) && libs[i - 1].commitHr == 0
  {
    hide LogOk, UpdateStatus, UnderTest, LastAdded;
    ScanLaws.ResultIsLastAct(n, log, i);
    assert PlayedAct(log[i - 1], libs[i - 1], heard[i - 1]);
  }

  /** Act c compares a frame with the template that act e returned from an enrollment. */
  predicate Returned(e: Act, c: Act) {
    e.OpComplete? && c.VerifyCall? && e.result == Template(c.tmpl)
  }

  /** In comparison c the template is not refused for its length but the engine's verdict decides; and as long as the
      library adds no record itself, it reads exactly the template's bytes. */
  predicate ComesBack(c: Act, l: Library, replies: seq<Reply>)
    requires c.VerifyCall?
  {
    var m := l.verify(c.index);
    (c.hit <==> m.verdict != 0) && (AddsNothing(m.calls) ==> ReadsOnly(m.calls, replies, c.tmpl))
  }

  /** A template returned by an enrollment comes back in every later comparison, in this session or any other. */
  lemma TemplateComesBack(n: Setup, log: seq<Act>, libs: seq<Library>, heard: seq<seq<Reply>>, i: nat,
                          log': seq<Act>, libs': seq<Library>, heard': seq<seq<Reply>>, j: nat)
    requires LogOk(n, log) && Played(log, libs, heard) && i < |log|
    requires Played(log', libs', heard') && j < |log'| && Returned(log[i], log'[j])
    ensures ComesBack(log'[j], libs'[j], heard'[j])
  {
    hide LogOk, UpdateStatus, UnderTest, LastAdded, Answer, Settled;
    EnrolledIsCommitted(n, log, libs, heard, i);
    assert PlayedAct(log'[j], libs'[j], heard'[j]);
    var m := libs'[j].verify(log'[j].index);
    if AddsNothing(m.calls) { UnderTestReads(log'[j].tmpl, m.calls, heard'[j]); }
  }

  /** Two sessions with one wrapper, anything before and between them: whichever template the first returns, every
      comparison with it in the second is decided by the engine, which reads back the bytes it committed. */
  method EnrollThenCompare(width: u8, height: u8, engineOk: bool, useFpn: bool, before: seq<Op>,
                           first: seq<Happening>, between: seq<Op>, second: seq<Happening>)
    returns (log: seq<Act>, log': seq<Act>, libs': seq<Library>, heard': seq<seq<Reply>>)
    ensures log == RunFrom(Opened(width, height, engineOk, useFpn, []), Events(first)).log
    ensures log' == RunFrom(Opened(width, height, engineOk, useFpn, []), Events(second)).log
    ensures |libs'| == |heard'| == |log'|
    ensures forall i, j :: 0 <= i < |log| && 0 <= j < |log'| && Returned(log[i], log'[j]) ==>
              ComesBack(log'[j], libs'[j], heard'[j])
  {
    hide Step, RunFrom, Opened, LogOk, Played, PlayedAct, ComesBack;
    var w := new Wrapper();
    Perform(w, before);
    var libs, heard;
    log, libs, heard := Serve(w, width, height, engineOk, useFpn, first);
    Perform(w, between);
    log', libs', heard' := Serve(w, width, height, engineOk, useFpn, second);
    assert |libs'| == |heard'| == |log'| by { PlayedLengths(log', libs', heard'); }
    var n := Setup(width as int * height as int, engineOk);
    forall i, j | 0 <= i < |log| && 0 <= j < |log'| && Returned(log[i], log'[j])
      ensures ComesBack(log'[j], libs'[j], heard'[j])
    {
      TemplateComesBack(n, log, libs, heard, i, log', libs', heard', j);
    }
  }

  lemma PlayedLengths(log: seq<Act>, libs: seq<Library>, heard: seq<seq<Reply>>)
    requires Played(log, libs, heard)
    ensures |libs| == |heard| == |log|
  {
  }
}
