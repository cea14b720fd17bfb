/** The engine wrapper and its single-record storage adapter (src/ft_engine.c). The vendor library is an oracle: during
    any engine call it may call back into the storage adapter any number of times, in any order, with any records. */
module Engine {
  import opened Bytes
  import Scan = ScanSpec

  const NO_RESULTS: u32 := 0x8009_801f
  const NO_MORE: u32 := 0x8009_8020

  const ID_SIZE: nat := 76

  /** A WinBio identity. */
  type Identity = s: seq<u8> | |s| == ID_SIZE witness seq(ID_SIZE, _ => 0)

  /** A callback into the storage adapter, with the bytes its pointers show when it is made, also where they point into
      the adapter's own record; None stands for a null pointer. */
  datatype Call =
    | AddRecord(template: Option<seq<u8>>, identity: Option<Identity>)
    | QueryBySubject(identity: Option<Identity>)
    | FirstRecord
    | NextRecord
    | GetCurrentRecord
  {
    /** The identity it brings. */
    function Brings(): Option<Identity> { if AddRecord? || QueryBySubject? then identity else None }
  }

  /** What the callback hands back. */
  datatype Reply = Status(code: u32) | Record(template: seq<u8>, identity: Identity)

  /** The value of the store: the template bytes a reader sees, the identity, and whether a record exists. */
  datatype Store = Store(template: seq<u8>, identity: Identity, present: bool)

  predicate Admissible(t: Option<seq<u8>>) { t.Some? && 0 < |t.value| <= Scan.MAX_TEMPLATE }

  function After(s: Store, c: Call): Store {
    var id := if c.Brings().Some? then c.Brings().value else s.identity;
    if c.AddRecord? && Admissible(c.template) then Store(c.template.value, id, true) else s.(identity := id)
  }

  function Answer(s: Store, c: Call): Reply {
    match c
    case AddRecord(_, _) => Status(0)
    case QueryBySubject(_) => Status(if s.present then 0 else NO_RESULTS)
    case FirstRecord => Status(if s.present then 0 else NO_RESULTS)
    case NextRecord => Status(NO_MORE)
    case GetCurrentRecord => Record(s.template, s.identity)
  }

  /** Template of the last admissible AddRecord. */
  function LastAdded(calls: seq<Call>): (t: Option<seq<u8>>)
    ensures t.None? || Admissible(t)
  {
    if calls == [] then None
    else
      var c := calls[|calls| - 1];
      if c.AddRecord? && Admissible(c.template) then c.template else LastAdded(calls[..|calls| - 1])
  }

  /** The identity brought last. */
  function LastIdentity(calls: seq<Call>): Option<Identity> {
    if calls == [] then None
    else
      var id := calls[|calls| - 1].Brings();
      if id.Some? then id else LastIdentity(calls[..|calls| - 1])
  }

  /** What a store started at s amounts to after the calls. */
  function Settled(s: Store, calls: seq<Call>): Store {
    var t, id := LastAdded(calls), LastIdentity(calls);
    Store(if t.Some? then t.value else s.template, if id.Some? then id.value else s.identity, s.present || t.Some?)
  }

  lemma LastAddedIs(calls: seq<Call>, k: nat)
    requires k < |calls| && calls[k].AddRecord? && Admissible(calls[k].template)
    requires forall j :: k < j < |calls| && calls[j].AddRecord? ==> !Admissible(calls[j].template)
    ensures LastAdded(calls) == calls[k].template
  {
    if k < |calls| - 1 { LastAddedIs(calls[..|calls| - 1], k); }
  }

  lemma SettledNext(s: Store, calls: seq<Call>, c: Call)
    ensures Settled(s, calls + [c]) == After(Settled(s, calls), c)
  {
    assert (calls + [c])[..|calls|] == calls;
  }

  /** No call of the list adds a record. */
  predicate AddsNothing(calls: seq<Call>) {
    forall k :: 0 <= k < |calls| && calls[k].AddRecord? ==> !Admissible(calls[k].template)
  }

  lemma {:induction false} NothingAdded(calls: seq<Call>)
    ensures LastAdded(calls).None? <==> AddsNothing(calls)
  {
    if calls != [] {
      var rest := calls[..|calls| - 1];
      NothingAdded(rest);
      assert calls == rest + [calls[|calls| - 1]];
    }
  }

  class Wrapper {
    /** g_rec_template, g_rec_identity, g_rec_tsize and g_have_record. */
    const recTemplate: array<u8>
    const recIdentity: array<u8>
    var recSize: nat
    var haveRecord: bool

    ghost predicate Valid()
      reads this
    {
      && recTemplate.Length == Scan.MAX_TEMPLATE && recIdentity.Length == ID_SIZE && recTemplate != recIdentity
      && recSize <= Scan.MAX_TEMPLATE
    }

    /** Bytes beyond recSize, left over from longer templates, are not part of the value. */
    ghost function View(): Store
      requires Valid()
      reads this, recTemplate, recIdentity
    {
      Store(recTemplate[..recSize], recIdentity[..], haveRecord)
    }

    constructor ()
      ensures Valid() && View() == Store([], seq(ID_SIZE, _ => 0), false) && fresh(recTemplate) && fresh(recIdentity)
    {
      recTemplate := new u8[Scan.MAX_TEMPLATE](_ => 0);
      recIdentity := new u8[ID_SIZE](_ => 0);
      recSize, haveRecord := 0, false;
    }

    /** Copy a template into the record. */
    method Load(t: seq<u8>)
      requires Valid() && |t| <= Scan.MAX_TEMPLATE
      modifies this, recTemplate, recIdentity
      ensures Valid() && View() == Store(t, old(View()).identity, true)
    {
      CopyInto(recTemplate, t);
      recSize, haveRecord := |t|, true;
      assert recTemplate[..recSize] == t;
    }

    method Identify(id: Option<Identity>)
      requires Valid()
      modifies recIdentity
      ensures Valid() && View() == old(View()).(identity := if id.Some? then id.value else old(View()).identity)
    {
      if id.Some? {
        CopyInto(recIdentity, id.value);
        assert recIdentity[..] == id.value;
      }
    }

    // ---- storage callbacks ----

    method Handle(c: Call) returns (r: Reply)
      requires Valid()
      modifies this, recTemplate, recIdentity
      ensures Valid() && View() == After(old(View()), c) && r == Answer(old(View()), c)
    {
      match c
      case AddRecord(t, id) =>
        Identify(id);
        if t.Some? && 0 < |t.value| <= Scan.MAX_TEMPLATE { Load(t.value); }
        r := Status(0);
      case QueryBySubject(id) =>
        r := Status(if haveRecord then 0 else NO_RESULTS);
        Identify(id);
      case FirstRecord => r := Status(if haveRecord then 0 else NO_RESULTS);
      case NextRecord => r := Status(NO_MORE);
      case GetCurrentRecord => r := Record(recTemplate[..recSize], recIdentity[..]);
    }

    /** The vendor library at work: whatever it calls, each reply tells what has been stored so far. */
    method Oracle(calls: seq<Call>) returns (replies: seq<Reply>)
      requires Valid()
      modifies this, recTemplate, recIdentity
      ensures Valid() && View() == Settled(old(View()), calls)
      ensures |replies| == |calls|
      ensures forall k :: 0 <= k < |calls| ==> replies[k] == Answer(Settled(old(View()), calls[..k]), calls[k])
    {
      hide Settled, After, Answer;
      replies := [];
      SettledNone(View());
      assert calls[..0] == [];
      for i := 0 to |calls|
        invariant Valid() && View() == Settled(old(View()), calls[..i]) && |replies| == i
        invariant forall k :: 0 <= k < i ==> replies[k] == Answer(Settled(old(View()), calls[..k]), calls[k])
      {
        SettledNext(old(View()), calls[..i], calls[i]);
        assert calls[..i + 1] == calls[..i] + [calls[i]];
        var r := Handle(calls[i]);
        replies := replies + [r];
      }
      assert calls[..|calls|] == calls;
    }

    // ---- the wrapper's API ----

    /** ft_engine_enroll_begin. Nothing of an earlier session is visible to the engine. */
    method EnrollBegin(calls: seq<Call>) returns (replies: seq<Reply>)
      requires Valid()
      modifies this, recTemplate, recIdentity
      ensures var cleared := old(View()).(template := [], present := false);
              && Valid() && View() == Settled(cleared, calls) && |replies| == |calls|
              && forall k :: 0 <= k < |calls| ==> replies[k] == Answer(Settled(cleared, calls[..k]), calls[k])
    {
      haveRecord, recSize := false, 0;
      replies := Oracle(calls);
    }

    /** ft_engine_accept, as far as the record is concerned. */
    method Accept(calls: seq<Call>) returns (replies: seq<Reply>)
      requires Valid()
      modifies this, recTemplate, recIdentity
      ensures Valid() && View() == Settled(old(View()), calls)
    {
      replies := Oracle(calls);
    }

    /** ft_engine_enroll_update: 0 complete, 1 more samples needed, 2 frame rejected; the status call is made only for
        a frame that was not rejected. */
    method EnrollUpdate(update: seq<Call>, updateHr: u32, updateRej: u32, status: seq<Call>, statusHr: u32)
      returns (r: nat, calls: seq<Call>)
      requires Valid()
      modifies this, recTemplate, recIdentity
      ensures Valid() && View() == Settled(Settled(old(View()), update), if r == 2 then [] else status)
      ensures r == 2 <==> updateHr == 0x8009_8008 || updateRej != 0
      ensures r == 0 <==> r != 2 && statusHr == 0
      ensures forall a: Scan.Answers :: a.updateHr == updateHr && a.updateRej == updateRej && a.statusHr == statusHr
                                        ==> r == Scan.UpdateStatus(a)
      ensures r <= 2 && calls == if r == 2 then update else update + status
    {
      var replies := Oracle(update);
      if updateHr == Scan.REJECTED || updateRej != 0 { return 2, update; }
      replies := Oracle(status);
      return if statusHr == 0 then 0 else 1, update + status;
    }

    /** ft_engine_enroll_commit: 0 and the template, -1 when the engine failed or stored nothing, -2 when out of
        memory. Whatever was stored before, only records added during this commit count. */
    method EnrollCommit(calls: seq<Call>, hr: u32, memory: bool) returns (rc: int, out: seq<u8>, replies: seq<Reply>)
      requires Valid()
      modifies this, recTemplate, recIdentity
      ensures Valid() && View() == Settled(old(View()).(present := false), calls)
      ensures rc == 0 <==> hr == 0 && LastAdded(calls).Some? && memory
      ensures rc == -1 <==> hr != 0 || AddsNothing(calls)
      ensures rc == 0 || rc == -1 || rc == -2
      ensures rc == 0 ==> Some(out) == LastAdded(calls) && 1 <= |out| <= 0x10_0000
      ensures rc != 0 ==> out == []
      ensures |replies| == |calls|
      ensures forall k :: 0 <= k < |calls| ==>
                replies[k] == Answer(Settled(old(View()).(present := false), calls[..k]), calls[k])
    {
      NothingAdded(calls);
      haveRecord := false;
      replies := Oracle(calls);
      if hr != 0 || !haveRecord { return -1, [], replies; }
      if !memory { return -2, [], replies; }
      return 0, recTemplate[..recSize], replies;
    }

    /** ft_engine_verify. A template of a length the record cannot hold is no match and reaches neither the record nor
        the engine; any other is what the engine reads back, until the engine itself adds a record. */
    method Verify(tmpl: seq<u8>, calls: seq<Call>, verdict: u8) returns (matched: bool, replies: seq<Reply>)
      requires Valid()
      modifies this, recTemplate, recIdentity
      ensures Valid()
      ensures matched <==> 0 < |tmpl| <= 0x10_0000 && verdict != 0
      ensures matched == Scan.EngineVerify(tmpl, verdict != 0)
      ensures !(0 < |tmpl| <= 0x10_0000) ==> View() == old(View()) && replies == []
      ensures 0 < |tmpl| <= 0x10_0000 ==>
                var loaded := Store(tmpl, old(View()).identity, true);
                && View() == Settled(loaded, calls) && |replies| == |calls|
                && forall k :: 0 <= k < |calls| ==> replies[k] == Answer(Settled(loaded, calls[..k]), calls[k])
    {
      if |tmpl| == 0 || |tmpl| > Scan.MAX_TEMPLATE { return false, []; }
      Load(tmpl);
      replies := Oracle(calls);
      matched := verdict != 0;
    }
  }

  // ---- what the engine reads ----

  /** A reader of the record during a verification sees the template under test up to the engine's own first
      admissible AddRecord, and that one's bytes from the last such call on. */
  lemma VerifyReads(tmpl: seq<u8>, id: Identity, calls: seq<Call>, k: nat)
    requires k < |calls| && calls[k] == GetCurrentRecord
    ensures var reply := Answer(Settled(Store(tmpl, id, true), calls[..k]), calls[k]);
            && reply.Record?
            && reply.template == (if LastAdded(calls[..k]).Some? then LastAdded(calls[..k]).value else tmpl)
            && (AddsNothing(calls) ==> reply.template == tmpl)
            && reply.identity == if LastIdentity(calls[..k]).Some? then LastIdentity(calls[..k]).value else id
  {
    NothingAdded(calls[..k]);
  }

  /** The callback brings this identity, in a record to be added or as the subject of a query. */
  predicate Names(c: Call, id: Identity) {
    match c
    case AddRecord(_, given) => given == Some(id)
    case QueryBySubject(given) => given == Some(id)
    case _ => false
  }

  /** A reader sees the identity of the last callback that brought one, ... */
  lemma IdentityReads(s: Store, calls: seq<Call>, k: nat, q: nat, id: Identity)
    requires q < k < |calls| && calls[k] == GetCurrentRecord && Names(calls[q], id)
    requires forall r, other :: q < r < k ==> !Names(calls[r], other)
    ensures var reply := Answer(Settled(s, calls[..k]), calls[k]); reply.Record? && reply.identity == id
  {
    LastIdentityIs(calls[..k], q, id);
  }

  /** ... or the one that was there before. */
  lemma IdentityKept(s: Store, calls: seq<Call>, k: nat)
    requires k < |calls| && calls[k] == GetCurrentRecord && forall r, other :: 0 <= r < k ==> !Names(calls[r], other)
    ensures var reply := Answer(Settled(s, calls[..k]), calls[k]); reply.Record? && reply.identity == s.identity
  {
    NoIdentity(calls[..k]);
  }

  lemma {:induction false} LastIdentityIs(calls: seq<Call>, q: nat, id: Identity)
    requires q < |calls| && Names(calls[q], id)
    requires forall r, other :: q < r < |calls| ==> !Names(calls[r], other)
    ensures LastIdentity(calls) == Some(id)
  {
    var last := calls[|calls| - 1];
    if q < |calls| - 1 {
      assert last.Brings().Some? ==> Names(last, last.Brings().value);
      LastIdentityIs(calls[..|calls| - 1], q, id);
    }
  }

  lemma {:induction false} NoIdentity(calls: seq<Call>)
    requires forall r, other :: 0 <= r < |calls| ==> !Names(calls[r], other)
    ensures LastIdentity(calls) == None
  {
    if calls != [] {
      var last := calls[|calls| - 1];
      assert last.Brings().Some? ==> Names(last, last.Brings().value);
      NoIdentity(calls[..|calls| - 1]);
    }
  }

  /** One enrollment update: the two lists of callbacks and what the engine answers. */
  datatype Sample = Sample(update: seq<Call>, updateHr: u32, updateRej: u32, status: seq<Call>, statusHr: u32) {
    predicate Rejected() { updateHr == Scan.REJECTED || updateRej != 0 }

    /** The callbacks that are made. */
    function Made(): seq<Call> { if Rejected() then update else update + status }
  }

  /** Anything that can happen to the wrapper between two operations of interest. */
  datatype Op =
    | Beginning(calls: seq<Call>)
    | Accepting(calls: seq<Call>)
    | Updating(sample: Sample)
    | Committing(calls: seq<Call>, hr: u32, memory: bool)
    | Verifying(tmpl: seq<u8>, calls: seq<Call>, verdict: u8)

  method Perform(w: Wrapper, ops: seq<Op>)
    requires w.Valid()
    modifies w, w.recTemplate, w.recIdentity
    ensures w.Valid()
  {
    for i := 0 to |ops|
      invariant w.Valid()
    {
      match ops[i]
      case Beginning(calls) => var _ := w.EnrollBegin(calls);
      case Accepting(calls) => var _ := w.Accept(calls);
      case Updating(u) => var _, _ := w.EnrollUpdate(u.update, u.updateHr, u.updateRej, u.status, u.statusHr);
      case Committing(calls, hr, memory) => var _, _, _ := w.EnrollCommit(calls, hr, memory);
      case Verifying(tmpl, calls, verdict) => var _, _ := w.Verify(tmpl, calls, verdict);
    }
  }

  /** Template round trip, for any oracle: after any history, a commit that succeeds returns the last record added
      during it; and however many other templates pass through the record in between, verifying against the returned
      bytes gives the engine exactly those bytes at every read, as long as it adds no record itself. */
  method RoundTrip(before: seq<Op>, commit: seq<Call>, hr: u32, memory: bool,
                   between: seq<Op>, verify: seq<Call>, verdict: u8)
    returns (rc: int, out: seq<u8>, matched: bool, replies: seq<Reply>)
    ensures rc == 0 <==> hr == 0 && !AddsNothing(commit) && memory
    ensures rc == 0 ==> Some(out) == LastAdded(commit) && 1 <= |out| <= 0x10_0000
    ensures rc == 0 ==> (matched <==> verdict != 0) && |replies| == |verify|
    ensures rc == 0 && AddsNothing(verify) ==>
              forall k :: 0 <= k < |verify| && verify[k] == GetCurrentRecord
                          ==> replies[k].Record? && replies[k].template == out
  {
    var w := new Wrapper();
    Perform(w, before);
    NothingAdded(commit);
    var ignored;
    rc, out, ignored := w.EnrollCommit(commit, hr, memory);
    Perform(w, between);
    ghost var id := w.View().identity;
    matched, replies := w.Verify(out, verify, verdict);
    if rc == 0 && AddsNothing(verify) {
      forall k | 0 <= k < |verify| && verify[k] == GetCurrentRecord
        ensures replies[k].Record? && replies[k].template == out
      {
        VerifyReads(out, id, verify, k);
      }
    }
  }

  /** Callbacks made by an accept or update. */
  function Calls(op: Op): seq<Call> {
    if op.Accepting? then op.calls else if op.Updating? then op.sample.Made() else []
  }

  /** Callbacks made by the accepts and updates of a session. */
  function Heard(ops: seq<Op>): seq<Call> {
    if ops == [] then [] else Heard(ops[..|ops| - 1]) + Calls(ops[|ops| - 1])
  }

  predicate Sampling(ops: seq<Op>) { forall i :: 0 <= i < |ops| ==> ops[i].Accepting? || ops[i].Updating? }

  lemma {:induction false} SettledConcat(s: Store, a: seq<Call>, b: seq<Call>)
    ensures Settled(Settled(s, a), b) == Settled(s, a + b)
  {
    if b == [] {
      assert a + b == a;
    } else {
      var rest, c := b[..|b| - 1], b[|b| - 1];
      SettledConcat(s, a, rest);
      SettledNext(s, a + rest, c);
      SettledNext(Settled(s, a), rest, c);
      assert a + b == (a + rest) + [c] && b == rest + [c];
    }
  }

  /** Any number of accepts and updates leaves the record as their callbacks settle it. */
  method Collect(w: Wrapper, ops: seq<Op>)
    requires w.Valid() && Sampling(ops)
    modifies w, w.recTemplate, w.recIdentity
    ensures w.Valid() && w.View() == Settled(old(w.View()), Heard(ops))
  {
    hide Settled, Heard;
    ghost var s := w.View();
    SettledNone(s);
    HeardNone();
    assert ops[..0] == [];
    for i := 0 to |ops|
      invariant w.Valid() && w.View() == Settled(s, Heard(ops[..i]))
    {
      match ops[i] {
        case Accepting(calls) =>
          var _ := w.Accept(calls);
          SettledConcat(s, Heard(ops[..i]), calls);
        case Updating(u) =>
          var _, made := w.EnrollUpdate(u.update, u.updateHr, u.updateRej, u.status, u.statusHr);
          UpdateSettles(s, Heard(ops[..i]), u);
      }
      HeardSnoc(ops, i);
    }
    assert ops[..|ops|] == ops;
  }

  lemma HeardNone()
    ensures Heard([]) == []
  {
  }

  lemma HeardSnoc(ops: seq<Op>, i: nat)
    requires i < |ops|
    ensures Heard(ops[..i + 1]) == Heard(ops[..i]) + Calls(ops[i])
  {
    assert ops[..i + 1][..i] == ops[..i];
  }

  lemma SettledNone(s: Store)
    ensures Settled(s, []) == s
  {
  }

  lemma UpdateSettles(s: Store, base: seq<Call>, u: Sample)
    ensures Settled(Settled(Settled(s, base), u.update), if u.Rejected() then [] else u.status)
            == Settled(s, base + u.Made())
  {
    hide Settled;
    SettledConcat(s, base, u.update);
    SettledConcat(s, base + u.update, if u.Rejected() then [] else u.status);
    assert base + u.update + (if u.Rejected() then [] else u.status) == base + u.Made();
  }

  /** What a read of the record yields when nothing but these callbacks has filled it since it was cleared. */
  function LatestOf(calls: seq<Call>): seq<u8> {
    var t := LastAdded(calls);
    if t.Some? then t.value else []
  }

  /** A reader during a commit. */
  lemma CommitReads(cleared: Store, session: seq<Call>, commit: seq<Call>, k: nat)
    requires k < |commit| && cleared.template == [] && !cleared.present
    ensures var reply := Answer(Settled(Settled(cleared, session).(present := false), commit[..k]), commit[k]);
            && (commit[k] == GetCurrentRecord ==> reply.Record? && reply.template == LatestOf(session + commit[..k]))
            && (commit[k].QueryBySubject? || commit[k] == FirstRecord ==>
                  reply == Status(if LastAdded(commit[..k]).Some? then 0 else 0x8009_801f))
            && (commit[k] == NextRecord ==> reply == Status(0x8009_8020))
  {
    hide LastAdded, LastIdentity;
    SettledConcat(cleared, session, commit[..k]);
  }

  /** An enrollment session, whatever came before it: every read during its commit sees the last record added in this
      very session, or nothing, never an earlier session's or a verified template; and whether a record exists counts
      from the commit on. */
  method EnrollSession(before: seq<Op>, begin: seq<Call>, samples: seq<Op>, commit: seq<Call>, hr: u32, memory: bool)
    returns (rc: int, out: seq<u8>, replies: seq<Reply>)
    requires Sampling(samples)
    ensures rc == 0 <==> hr == 0 && !AddsNothing(commit) && memory
    ensures rc == 0 ==> Some(out) == LastAdded(commit)
    ensures |replies| == |commit|
    ensures forall k :: 0 <= k < |commit| && commit[k] == GetCurrentRecord ==>
              replies[k].Record? && replies[k].template == LatestOf(begin + Heard(samples) + commit[..k])
    ensures forall k :: 0 <= k < |commit| && (commit[k].QueryBySubject? || commit[k] == FirstRecord) ==>
              replies[k] == Status(if LastAdded(commit[..k]).Some? then 0 else 0x8009_801f)
  {
    hide LastAdded, Settled, Heard, Answer, LatestOf, AddsNothing;
    var w := new Wrapper();
    Perform(w, before);
    ghost var cleared := w.View().(template := [], present := false);
    var ignored := w.EnrollBegin(begin);
    Collect(w, samples);
    SettledConcat(cleared, begin, Heard(samples));
    NothingAdded(commit);
    rc, out, replies := w.EnrollCommit(commit, hr, memory);
    forall k | 0 <= k < |commit|
      ensures commit[k] == GetCurrentRecord ==>
                replies[k].Record? && replies[k].template == LatestOf(begin + Heard(samples) + commit[..k])
      ensures commit[k].QueryBySubject? || commit[k] == FirstRecord ==>
                replies[k] == Status(if LastAdded(commit[..k]).Some? then 0 else 0x8009_801f)
    {
      CommitReads(cleared, begin + Heard(samples), commit, k);
    }
  }
}
