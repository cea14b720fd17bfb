/** Logs of memory accesses: when running stores while reading has the same effect as reading first. */
module AccessLog {
  import opened Bytes

  datatype Access = Load(lo: nat, hi: nat) | Store(at: nat, val: u64) {
    function Lo(): nat { if Load? then lo else at }

    function Hi(): nat { if Load? then hi else at + 8 }
  }

  predicate Apart(x: Access, y: Access) {
    x.Hi() <= y.Lo() || y.Hi() <= x.Lo()
  }

  /** No access touches a byte stored earlier in the log. */
  ghost predicate NoHazard(log: seq<Access>) {
    forall i, j :: 0 <= i < j < |log| && log[i].Store? ==> Apart(log[i], log[j])
  }

  /** The memory after the log's stores, in order. */
  function Apply(mem: seq<u8>, log: seq<Access>): (r: seq<u8>)
    ensures |r| == |mem|
  {
    if log == [] then mem
    else
      var m, x := Apply(mem, log[..|log| - 1]), log[|log| - 1];
      if x.Store? && x.at + 8 <= |mem| then Put(m, x.at, Le64(x.val)) else m
  }

  lemma ApplyOne(mem: seq<u8>, log: seq<Access>, x: Access)
    ensures Apply(mem, log + [x])
            == if x.Store? && x.at + 8 <= |mem| then Put(Apply(mem, log), x.at, Le64(x.val)) else Apply(mem, log)
  {
    assert (log + [x])[..|log|] == log;
  }

  /** Bytes apart from every store keep their value. */
  lemma {:induction false} ApplyUntouched(mem: seq<u8>, log: seq<Access>, lo: nat, hi: nat)
    requires lo <= hi <= |mem|
    requires forall x :: x in log && x.Store? ==> Apart(x, Load(lo, hi))
    ensures Apply(mem, log)[lo..hi] == mem[lo..hi]
  {
    if log != [] {
      var rest, x := log[..|log| - 1], log[|log| - 1];
      ApplyUntouched(mem, rest, lo, hi);
      assert x in log;
      assert Apply(mem, log)[lo..hi] == Apply(mem, rest)[lo..hi];
    }
  }

  /** What a load sees while a hazard-free log is still running is what the initial memory holds. */
  lemma LoadSeesInitial(mem: seq<u8>, done: seq<Access>, rest: seq<Access>, lo: nat, hi: nat, k: nat)
    requires NoHazard(done + rest) && k < |rest| && rest[k] == Load(lo, hi) && lo <= hi <= |mem|
    ensures Apply(mem, done)[lo..hi] == mem[lo..hi]
  {
    forall x | x in done && x.Store? ensures Apart(x, Load(lo, hi)) {
      var i :| 0 <= i < |done| && done[i] == x;
      assert (done + rest)[i] == x && (done + rest)[|done| + k] == Load(lo, hi);
    }
    ApplyUntouched(mem, done, lo, hi);
  }

  /** After a hazard-free log every stored word still holds the stored value. */
  lemma {:induction false} StoresSurvive(mem: seq<u8>, log: seq<Access>, i: nat)
    requires NoHazard(log) && i < |log| && log[i].Store? && log[i].at + 8 <= |mem|
    ensures Read64(Apply(mem, log), log[i].at) == log[i].val
  {
    hide Apply, Read64, Put, Le64;
    var rest, x, at := log[..|log| - 1], log[|log| - 1], log[i].at;
    ApplyOne(mem, rest, x);
    assert log == rest + [x];
    if i == |log| - 1 {
      PutHere(Apply(mem, rest), at, x.val);
    } else {
      StoresSurvive(mem, rest, i);
      assert rest[i] == log[i] && Apart(log[i], x);
      if x.Store? && x.at + 8 <= |mem| { PutElsewhere(Apply(mem, rest), x.at, x.val, at); }
    }
  }

  lemma PutHere(m: seq<u8>, at: nat, v: u64)
    requires at + 8 <= |m|
    ensures Read64(Put(m, at, Le64(v)), at) == v
  {
    hide Read64, Le64;
    SameBytes64(Put(m, at, Le64(v)), Le64(v), at, 0);
  }

  lemma PutElsewhere(m: seq<u8>, at: nat, v: u64, o: nat)
    requires at + 8 <= |m| && o + 8 <= |m| && (at + 8 <= o || o + 8 <= at)
    ensures Read64(Put(m, at, Le64(v)), o) == Read64(m, o)
  {
    hide Read64, Le64;
    SameBytes64(Put(m, at, Le64(v)), m, o, o);
  }

  lemma HazardAppend(a: seq<Access>, b: seq<Access>)
    requires NoHazard(a) && NoHazard(b)
    requires forall x, y :: x in a && y in b && x.Store? ==> Apart(x, y)
    ensures NoHazard(a + b)
  {
  }
}
