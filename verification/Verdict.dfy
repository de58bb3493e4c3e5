/**
 The verdict over all command stations: every connection reports how its attempt to occupy the
 slot ended, and the waiting throttle gets one combined answer.
 */
module Verdict {
  import opened Wrappers
  import opened Frames

  datatype Result = NotRequesting | Requesting | Busy | Success | Occupied | Failure

  datatype Answer = Answer(result: Result, slot: Option<Reply>)

  datatype Report = Succeeded(client: nat, reply: Reply) | WasOccupied(client: nat) | Failed(client: nat)

  function ResultOf(r: Report): Result {
    match r
    case Succeeded(_, _) => Success
    case WasOccupied(_) => Occupied
    case Failed(_) => Failure
  }

  predicate Final(r: Result) {
    r.Success? || r.Occupied? || r.Failure?
  }

  /** What the collector knows; `crashes` counts reports that ran into an answer already given. */
  datatype State = State(results: seq<Result>, slots: seq<Option<Reply>>, answer: Option<Answer>, crashes: nat)

  predicate Sized(s: State) {
    |s.slots| == |s.results|
  }

  /** Failure beats occupation, occupation beats success; success carries the last connection's slot. */
  function Decide(results: seq<Result>, slots: seq<Option<Reply>>): Option<Answer>
    requires |slots| == |results|
  {
    if exists i :: 0 <= i < |results| && !Final(results[i]) then None
    else if Failure in results then Some(Answer(Failure, None))
    else if Occupied in results then Some(Answer(Occupied, None))
    else if Success in results then Some(Answer(Success, slots[|slots| - 1]))
    else None
  }

  function Take(s: State, r: Report): State
    requires Sized(s) && r.client < |s.results|
  {
    var results := s.results[r.client := ResultOf(r)];
    var slots := if r.Succeeded? then s.slots[r.client := Some(r.reply)] else s.slots;
    var decided := Decide(results, slots);
    if decided.None? then State(results, slots, s.answer, s.crashes)
    else if s.answer.Some? then State(results, slots, s.answer, s.crashes + 1)
    else State(results, slots, decided, s.crashes)
  }

  predicate From(rs: seq<Report>, n: nat) {
    forall i :: 0 <= i < |rs| ==> rs[i].client < n
  }

  predicate Initial(s: State) {
    && Sized(s) && s.answer == None && s.crashes == 0
    && forall i :: 0 <= i < |s.results| ==> !Final(s.results[i]) && s.slots[i] == None
  }

  function Run(s: State, rs: seq<Report>): (s1: State)
    requires Sized(s) && From(rs, |s.results|)
    ensures Sized(s1) && |s1.results| == |s.results|
  {
    if rs == [] then s else Take(Run(s, rs[..|rs| - 1]), rs[|rs| - 1])
  }

  // ----- The verdict, told from the reports alone -----

  /** The latest report of connection k. */
  function Latest(rs: seq<Report>, k: nat): Option<Report> {
    if rs == [] then None
    else if rs[|rs| - 1].client == k then Some(rs[|rs| - 1])
    else Latest(rs[..|rs| - 1], k)
  }

  /** Every connection has reported, whether it was asked to or not. */
  predicate Complete(rs: seq<Report>, n: nat) {
    forall k: nat :: k < n ==> Latest(rs, k).Some?
  }

  predicate SomeLatest(rs: seq<Report>, n: nat, result: Result) {
    exists k: nat :: k < n && Latest(rs, k).Some? && ResultOf(Latest(rs, k).value) == result
  }

  /** The answer that a complete set of reports calls for. */
  function Called(rs: seq<Report>, n: nat): Answer
    requires n > 0 && Complete(rs, n)
  {
    if SomeLatest(rs, n, Failure) then Answer(Failure, None)
    else if SomeLatest(rs, n, Occupied) then Answer(Occupied, None)
    else
      var last := Latest(rs, n - 1).value;
      Answer(Success, if last.Succeeded? then Some(last.reply) else None)
  }

  predicate Records(s: State, rs: seq<Report>) {
    && Sized(s)
    && forall k: nat :: k < |s.results| ==>
         && (Latest(rs, k).None? ==> !Final(s.results[k]))
         && (Latest(rs, k).Some? ==> s.results[k] == ResultOf(Latest(rs, k).value))
         && (Latest(rs, k).Some? && Latest(rs, k).value.Succeeded? ==> s.slots[k] == Some(Latest(rs, k).value.reply))
  }

  lemma {:induction false} RunRecords(s: State, rs: seq<Report>)
    requires Initial(s) && From(rs, |s.results|)
    ensures Records(Run(s, rs), rs)
  {
    if rs != [] { RunRecords(s, rs[..|rs| - 1]); }
  }

  /** Deciding from the recorded results is deciding from the reports. */
  lemma DecideCalls(s: State, rs: seq<Report>)
    requires Records(s, rs) && |s.results| > 0
    ensures Decide(s.results, s.slots)
         == if Complete(rs, |s.results|) then Some(Called(rs, |s.results|)) else None
  {
    var n := |s.results|;
    if Complete(rs, n) {
      assert forall k: nat :: k < n ==> s.results[k] == ResultOf(Latest(rs, k).value);
      assert s.results[0] in s.results && s.results[n - 1] in s.results;
      if Failure in s.results {
        var k :| 0 <= k < n && s.results[k] == Failure;
        assert SomeLatest(rs, n, Failure);
      } else if Occupied in s.results {
        var k :| 0 <= k < n && s.results[k] == Occupied;
        assert SomeLatest(rs, n, Occupied);
      }
    } else {
      var k: nat :| k < n && Latest(rs, k).None?;
      assert !Final(s.results[k]);
    }
  }

  lemma CompleteGrows(rs: seq<Report>, n: nat)
    requires rs != [] && Complete(rs[..|rs| - 1], n)
    ensures Complete(rs, n)
  {
  }

  /** The first m reports are the shortest beginning in which every connection has reported. */
  predicate CompletesAt(rs: seq<Report>, n: nat, m: nat) {
    0 < m <= |rs| && Complete(rs[..m], n) && !Complete(rs[..m - 1], n)
  }

  /**
   For any reports in any order, with connections reporting once, repeatedly or not at all: as long as
   one connection, asked or not, has not reported, there is no answer.
   */
  lemma {:induction false} NoAnswerBefore(s: State, rs: seq<Report>)
    requires Initial(s) && |s.results| > 0 && From(rs, |s.results|) && !Complete(rs, |s.results|)
    ensures Run(s, rs).answer == None && Run(s, rs).crashes == 0
  {
    if rs != [] {
      var before := rs[..|rs| - 1];
      if Complete(before, |s.results|) { CompleteGrows(rs, |s.results|); }
      NoAnswerBefore(s, before);
      RunRecords(s, rs);
      DecideCalls(Run(s, rs), rs);
      hide Decide, Complete, Records;
    }
  }

  /**
   The report that completes the set fixes the answer, from each connection's latest report. Later
   reports are recorded but leave the answer as it is, and each raises an exception in the reporting thread.
   */
  lemma {:induction false} AnswerGivenOnce(s: State, rs: seq<Report>, m: nat)
    requires Initial(s) && |s.results| > 0 && From(rs, |s.results|) && CompletesAt(rs, |s.results|, m)
    ensures Run(s, rs).answer == Some(Called(rs[..m], |s.results|))
    ensures Run(s, rs).crashes == |rs| - m
    decreases |rs|
  {
    var n := |s.results|;
    var before := rs[..|rs| - 1];
    RunRecords(s, rs);
    DecideCalls(Run(s, rs), rs);
    if m == |rs| {
      assert rs[..m] == rs;
      NoAnswerBefore(s, before);
    } else {
      assert before[..m] == rs[..m] && before[..m - 1] == rs[..m - 1];
      AnswerGivenOnce(s, before, m);
      StaysComplete(rs, n, m);
    }
    hide Decide, Complete, Records, Called;
  }

  lemma {:induction false} StaysComplete(rs: seq<Report>, n: nat, m: nat)
    requires m <= |rs| && Complete(rs[..m], n)
    ensures Complete(rs, n)
    decreases |rs|
  {
    if m == |rs| {
      assert rs[..m] == rs;
    } else {
      assert rs[..|rs| - 1][..m] == rs[..m];
      StaysComplete(rs[..|rs| - 1], n, m);
      CompleteGrows(rs, n);
    }
  }

  /** The slot data of an answer came with some report. */
  lemma {:induction false} SlotsWereReported(s: State, rs: seq<Report>)
    requires Initial(s) && From(rs, |s.results|)
    ensures var s1 := Run(s, rs);
            && (forall k :: 0 <= k < |s1.slots| && s1.slots[k].Some? ==> Succeeded(k, s1.slots[k].value) in rs)
            && (s1.answer.Some? && s1.answer.value.slot.Some? ==>
                  exists k: nat :: Succeeded(k, s1.answer.value.slot.value) in rs)
  {
    if rs != [] {
      var before := Run(s, rs[..|rs| - 1]);
      SlotsWereReported(s, rs[..|rs| - 1]);
      assert Run(s, rs) == Take(before, rs[|rs| - 1]);
      var s1 := Run(s, rs);
      if s1.answer.Some? && s1.answer.value.slot.Some? && s1.answer != before.answer {
        assert s1.answer.value.slot == s1.slots[|s1.slots| - 1];
        assert Succeeded(|s1.slots| - 1, s1.answer.value.slot.value) in rs;
      }
    }
  }

  // ----- When each connection reports once, order does not matter -----

  predicate OncePerClient(rs: seq<Report>) {
    forall i, j :: 0 <= i < j < |rs| ==> rs[i].client != rs[j].client
  }

  lemma {:induction false} LatestIsTheOne(rs: seq<Report>, r: Report)
    requires OncePerClient(rs) && r in rs
    ensures Latest(rs, r.client) == Some(r)
  {
    var last := rs[|rs| - 1];
    if last != r {
      var i :| 0 <= i < |rs| && rs[i] == r;
      assert rs[..|rs| - 1][i] == r && rs[i].client != rs[|rs| - 1].client;
      LatestIsTheOne(rs[..|rs| - 1], r);
    }
  }

  lemma {:induction false} LatestIsAReport(rs: seq<Report>, k: nat)
    ensures Latest(rs, k).Some? ==> Latest(rs, k).value in rs && Latest(rs, k).value.client == k
  {
    if rs != [] { LatestIsAReport(rs[..|rs| - 1], k); }
  }

  lemma SameLatest(rs: seq<Report>, qs: seq<Report>, k: nat)
    requires OncePerClient(rs) && OncePerClient(qs) && multiset(rs) == multiset(qs)
    ensures Latest(rs, k) == Latest(qs, k)
  {
    LatestIsAReport(rs, k);
    LatestIsAReport(qs, k);
    if Latest(rs, k).Some? {
      assert Latest(rs, k).value in multiset(qs);
      LatestIsTheOne(qs, Latest(rs, k).value);
    } else if Latest(qs, k).Some? {
      assert Latest(qs, k).value in multiset(rs);
      LatestIsTheOne(rs, Latest(qs, k).value);
    }
  }

  /** Two orders of the same reports call for the same answer. */
  lemma OrderDoesNotMatter(rs: seq<Report>, qs: seq<Report>, n: nat)
    requires n > 0 && OncePerClient(rs) && OncePerClient(qs) && multiset(rs) == multiset(qs) && Complete(rs, n)
    ensures Complete(qs, n) && Called(qs, n) == Called(rs, n)
  {
    forall k: nat ensures Latest(rs, k) == Latest(qs, k) {
      SameLatest(rs, qs, k);
    }
    SameCall(rs, qs, n);
  }

  /** With one report of each connection, it is the last report that completes the set. */
  lemma LastReportCompletes(rs: seq<Report>, n: nat)
    requires n > 0 && OncePerClient(rs) && From(rs, n) && Complete(rs, n)
    ensures CompletesAt(rs, n, |rs|)
  {
    assert Latest(rs, 0).Some?;
    var before, last := rs[..|rs| - 1], rs[|rs| - 1];
    assert rs[..|rs|] == rs;
    LatestIsAReport(before, last.client);
  }

  /**
   Each connection reports once, in any order: there is no answer before the last report, exactly one
   with it, the one the reports call for, and no reporting thread meets an exception.
   */
  lemma OneReportEach(s: State, rs: seq<Report>, m: nat)
    requires Initial(s) && |s.results| > 0 && From(rs, |s.results|)
    requires OncePerClient(rs) && Complete(rs, |s.results|) && m <= |rs|
    ensures Run(s, rs[..m]).answer == if m < |rs| then None else Some(Called(rs, |s.results|))
    ensures Run(s, rs[..m]).crashes == 0
  {
    LastReportCompletes(rs, |s.results|);
    if m == |rs| {
      assert rs[..m] == rs;
      AnswerGivenOnce(s, rs, m);
    } else {
      var before := rs[..|rs| - 1];
      assert rs[..m] == before[..m];
      if Complete(rs[..m], |s.results|) { StaysComplete(before, |s.results|, m); }
      NoAnswerBefore(s, rs[..m]);
    }
  }

  /** With at most one report of each connection, nobody meets an exception. */
  lemma OnceNeverCrashes(s: State, rs: seq<Report>)
    requires Initial(s) && From(rs, |s.results|) && OncePerClient(rs)
    ensures Run(s, rs).crashes == 0
  {
    if rs == [] { return; }
    var n := |s.results|;
    assert rs[0].client < n;
    if Complete(rs, n) {
      LastReportCompletes(rs, n);
      AnswerGivenOnce(s, rs, |rs|);
    } else {
      NoAnswerBefore(s, rs);
    }
  }

  /** The report that completes the set. */
  lemma {:induction false} FirstComplete(rs: seq<Report>, n: nat) returns (m: nat)
    requires n > 0 && Complete(rs, n)
    ensures CompletesAt(rs, n, m)
  {
    assert Latest(rs, 0).Some?;
    var before := rs[..|rs| - 1];
    if Complete(before, n) {
      m := FirstComplete(before, n);
      assert rs[..m] == before[..m] && rs[..m - 1] == before[..m - 1];
    } else {
      m := |rs|;
      assert rs[..m] == rs;
    }
  }

  /** The collector gives the same answer to the same reports in any two orders. */
  lemma AnswerIgnoresOrder(s: State, rs: seq<Report>, qs: seq<Report>)
    requires Initial(s) && |s.results| > 0 && From(rs, |s.results|) && From(qs, |s.results|)
    requires OncePerClient(rs) && OncePerClient(qs) && multiset(rs) == multiset(qs) && Complete(rs, |s.results|)
    ensures Run(s, rs).answer == Run(s, qs).answer == Some(Called(rs, |s.results|))
    ensures Run(s, rs).crashes == 0 == Run(s, qs).crashes
  {
    OrderDoesNotMatter(rs, qs, |s.results|);
    OneReportEach(s, rs, |rs|);
    OneReportEach(s, qs, |qs|);
    assert rs[..|rs|] == rs && qs[..|qs|] == qs;
  }

  lemma SameCall(rs: seq<Report>, qs: seq<Report>, n: nat)
    requires n > 0 && Complete(rs, n) && forall k: nat :: Latest(rs, k) == Latest(qs, k)
    ensures Complete(qs, n) && Called(qs, n) == Called(rs, n)
  {
    hide Latest;
    forall result ensures SomeLatest(rs, n, result) <==> SomeLatest(qs, n, result) {
      if SomeLatest(rs, n, result) {
        var k: nat :| k < n && Latest(rs, k).Some? && ResultOf(Latest(rs, k).value) == result;
        assert Latest(qs, k).Some? && ResultOf(Latest(qs, k).value) == result;
      }
      if SomeLatest(qs, n, result) {
        var k: nat :| k < n && Latest(qs, k).Some? && ResultOf(Latest(qs, k).value) == result;
        assert Latest(rs, k).Some? && ResultOf(Latest(rs, k).value) == result;
      }
    }
  }

  // ----- The object -----

  /** Bit i of the mask, where the shift count wraps at 32. */
  predicate IsUsed(usedLoconets: bv32, i: nat) {
    usedLoconets & ((1 as bv32) << (i % 32)) != 0
  }

  class AllLoconetsReply {
    const results: array<Result>
    const slots: array<Option<Reply>>
    var answer: Option<Answer>
    ghost var crashes: nat

    ghost predicate Valid() reads this {
      results.Length == slots.Length
    }

    ghost function Abs(): State reads this, results, slots {
      State(results[..], slots[..], answer, crashes)
    }

    constructor (num: nat, usedLoconets: bv32)
      ensures Valid() && fresh(results) && fresh(slots) && Initial(Abs())
      ensures results.Length == num
      ensures forall i :: 0 <= i < num ==> results[i] == if IsUsed(usedLoconets, i) then Requesting else NotRequesting
    {
      results := new Result[num];
      slots := new Option<Reply>[num];
      answer, crashes := None, 0;
      new;
      for i := 0 to num
        invariant forall j :: 0 <= j < i ==>
          slots[j] == None && results[j] == if IsUsed(usedLoconets, j) then Requesting else NotRequesting
        invariant answer == None && crashes == 0
      {
        results[i] := if IsUsed(usedLoconets, i) then Requesting else NotRequesting;
        slots[i] := None;
      }
    }

    /** Gives the answer once all have reported; a second answer is an exception. */
    method Check() returns (ok: bool)
      requires Valid()
      modifies this
      ensures var decided := Decide(results[..], slots[..]);
              && ok == (decided.None? || old(answer).None?)
              && answer == (if old(answer).None? then decided else old(answer))
              && crashes == old(crashes) + if ok then 0 else 1
    {
      var failed, occupied, success := false, false, false;
      var slot: Option<Reply> := None;
      var i := 0;
      while i < slots.Length
        invariant i <= slots.Length
        invariant forall j :: 0 <= j < i ==> Final(results[j])
        invariant failed <==> Failure in results[..i]
        invariant occupied <==> Occupied in results[..i]
        invariant success <==> Success in results[..i]
        invariant i > 0 && !failed && !occupied ==> slot == slots[i - 1]
        invariant answer == old(answer) && crashes == old(crashes)
      {
        assert results[..i + 1] == results[..i] + [results[i]];
        match results[i] {
          case Success => success := true; slot := slots[i];
          case Failure => failed := true;
          case Occupied => occupied := true;
          case _ =>
            assert !Final(results[..][i]);
            return true;  // not finished yet
        }
        i := i + 1;
      }
      assert results[..i] == results[..];
      var decided := None;
      if failed {
        decided := Some(Answer(Failure, None));
      } else if occupied {
        decided := Some(Answer(Occupied, None));
      } else if success {
        decided := Some(Answer(Success, slot));
      }
      ok := decided.None? || answer.None?;
      if answer.None? {
        answer := decided;
      }
      if !ok { crashes := crashes + 1; }
    }

    method SlotSuccess(loconetClient: nat, slotReply: Reply) returns (ok: bool)
      requires Valid() && loconetClient < results.Length
      modifies this, results, slots
      ensures Valid() && Abs() == Take(old(Abs()), Succeeded(loconetClient, slotReply))
      ensures ok == (crashes == old(crashes))
    {
      results[loconetClient] := Success;
      slots[loconetClient] := Some(slotReply);
      assert results[..] == old(results[..])[loconetClient := Success];
      assert slots[..] == old(slots[..])[loconetClient := Some(slotReply)];
      ok := Check();
    }

    method SlotFailed(loconetClient: nat) returns (ok: bool)
      requires Valid() && loconetClient < results.Length
      modifies this, results
      ensures Valid() && Abs() == Take(old(Abs()), Failed(loconetClient))
      ensures ok == (crashes == old(crashes))
    {
      results[loconetClient] := Failure;
      assert results[..] == old(results[..])[loconetClient := Failure];
      ok := Check();
    }

    method SlotOccupied(loconetClient: nat) returns (ok: bool)
      requires Valid() && loconetClient < results.Length
      modifies this, results
      ensures Valid() && Abs() == Take(old(Abs()), WasOccupied(loconetClient))
      ensures ok == (crashes == old(crashes))
    {
      results[loconetClient] := Occupied;
      assert results[..] == old(results[..])[loconetClient := Occupied];
      ok := Check();
    }
  }
}
