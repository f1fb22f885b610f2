/**
 Preservation evidence: losses are added up per code, then over all codes, and compared with
 the budget of the policy.
 */
module Evidence {
  import opened HwpModel

  const MAX_EVENTS := 1000
  const MAX_LOSS_COUNT := 1_000_000
  const MAX_LOSS_TOTAL := MAX_EVENTS * MAX_LOSS_COUNT
  /** The largest `usize` of the narrowest supported machine. */
  const USIZE_MAX := 0xFFFF_FFFF

  datatype Event = Event(code: string, count: nat)

  datatype CheckReport = CheckReport(passed: bool, reasons: seq<string>, total: nat, codes: Option<map<string, nat>>)

  const INVALID := CheckReport(false, ["preservation_report_invalid"], 0, None)

  predicate EventOk(event: Event) {
    1 <= event.count <= MAX_LOSS_COUNT
  }

  predicate EventsOk(events: seq<Event>) {
    |events| <= MAX_EVENTS && forall i :: 0 <= i < |events| ==> EventOk(events[i])
  }

  // ----- Sums ----------------------------------------------------------------------------

  function Losses(events: seq<Event>): nat {
    if events == [] then 0 else Losses(events[..|events| - 1]) + events[|events| - 1].count
  }

  function LossesOf(events: seq<Event>, code: string): nat {
    if events == [] then 0
    else
      var last := events[|events| - 1];
      LossesOf(events[..|events| - 1], code) + if last.code == code then last.count else 0
  }

  lemma {:induction false} LossesBounded(events: seq<Event>)
    requires forall i :: 0 <= i < |events| ==> EventOk(events[i])
    ensures Losses(events) <= |events| * MAX_LOSS_COUNT
  {
    if events != [] {
      LossesBounded(events[..|events| - 1]);
      assert EventOk(events[|events| - 1]);
    }
  }

  lemma {:induction false} LossesConcat(a: seq<Event>, b: seq<Event>)
    ensures Losses(a + b) == Losses(a) + Losses(b)
  {
    if b == [] {
      assert a + b == a;
    } else {
      assert (a + b)[..|a + b| - 1] == a + b[..|b| - 1];
      LossesConcat(a, b[..|b| - 1]);
    }
  }

  lemma LossesAround(front: seq<Event>, x: Event, back: seq<Event>)
    ensures Losses(front + [x] + back) == Losses(front + back) + x.count
  {
    LossesConcat(front + [x], back);
    LossesConcat(front, [x]);
    LossesConcat(front, back);
    assert [x][..0] == [];
    assert Losses([x]) == Losses([]) + x.count;
  }

  /** The total does not depend on the order of the events. */
  lemma {:induction false} LossesOfPermutation(a: seq<Event>, b: seq<Event>)
    requires multiset(a) == multiset(b)
    ensures Losses(a) == Losses(b)
    decreases |a|
  {
    if a == [] {
      assert |multiset(b)| == 0;
    } else {
      var x, rest := a[|a| - 1], a[..|a| - 1];
      var front, back := Around(a, b, x);
      LossesOfPermutation(rest, front + back);
      LossesAround(front, x, back);
    }
  }

  lemma Around(a: seq<Event>, b: seq<Event>, x: Event) returns (front: seq<Event>, back: seq<Event>)
    requires multiset(a) == multiset(b) && a != [] && x == a[|a| - 1]
    ensures b == front + [x] + back
    ensures multiset(a[..|a| - 1]) == multiset(front + back)
  {
    assert x in multiset(b);
    var i :| 0 <= i < |b| && b[i] == x;
    front, back := b[..i], b[i + 1..];
    var rest := a[..|a| - 1];
    assert b == front + [x] + back;
    assert a == rest + [x];
    MultisetOfParts(rest, [], x);
    MultisetOfParts(front, back, x);
    assert rest + [x] + [] == a && rest + [] == rest;
    assert multiset(rest) + multiset{x} == multiset(front + back) + multiset{x};
    Cancels(multiset(rest), multiset(front + back), multiset{x});
  }

  lemma MultisetOfParts(front: seq<Event>, back: seq<Event>, x: Event)
    ensures multiset(front + [x] + back) == multiset(front + back) + multiset{x}
  {
  }

  lemma Cancels(m: multiset<Event>, n: multiset<Event>, x: multiset<Event>)
    requires m + x == n + x
    ensures m == n
  {
    assert m == (m + x) - x && n == (n + x) - x;
  }

  ghost function Sum(m: map<string, nat>): nat {
    if m == map[] then 0
    else
      var k :| k in m;
      m[k] + Sum(m - {k})
  }

  lemma {:induction false} SumWithout(m: map<string, nat>, k: string)
    requires k in m
    ensures Sum(m) == m[k] + Sum(m - {k})
    decreases |m|
  {
    var j :| j in m && Sum(m) == m[j] + Sum(m - {j});
    if j != k {
      SumWithout(m - {j}, k);
      SumWithout(m - {k}, j);
      assert m - {j} - {k} == m - {k} - {j};
    }
  }

  lemma SumAdded(m: map<string, nat>, k: string, more: nat)
    ensures Sum(m[k := (if k in m then m[k] else 0) + more]) == Sum(m) + more
  {
    var n := m[k := (if k in m then m[k] else 0) + more];
    SumWithout(n, k);
    assert n - {k} == m - {k};
    if k in m {
      SumWithout(m, k);
    } else {
      assert m - {k} == m;
    }
  }

  lemma SumAtLeast(m: map<string, nat>, k: string)
    requires k in m
    ensures m[k] <= Sum(m)
  {
    SumWithout(m, k);
  }

  // ----- The check -----------------------------------------------------------------------

  function CodesOf(events: seq<Event>): set<string> {
    set i | 0 <= i < |events| :: events[i].code
  }

  /** The map holds exactly the codes that occur, each with its losses. */
  ghost predicate Tallied(codes: map<string, nat>, events: seq<Event>) {
    && codes.Keys == CodesOf(events)
    && forall code :: LossesOf(events, code) == if code in codes then codes[code] else 0
  }

  lemma TalliedStep(codes: map<string, nat>, events: seq<Event>, i: nat)
    requires i < |events| && Tallied(codes, events[..i])
    ensures var before := if events[i].code in codes then codes[events[i].code] else 0;
      Tallied(codes[events[i].code := before + events[i].count], events[..i + 1])
    ensures Losses(events[..i + 1]) == Losses(events[..i]) + events[i].count
  {
    var front, all := events[..i], events[..i + 1];
    assert all[..i] == front && all == front + [events[i]];
    assert CodesOf(all) == CodesOf(front) + {events[i].code} by {
      forall code | code in CodesOf(front) ensures code in CodesOf(all) {
        var j :| 0 <= j < i && front[j].code == code;
        assert all[j].code == code;
      }
      assert all[i].code == events[i].code;
    }
  }

  /** Adds the events up per code; `None` when a sum does not fit the machine word. */
  method PerCode(events: seq<Event>) returns (r: Option<map<string, nat>>)
    ensures EventsOk(events) ==> r.Some?
    ensures r.None? <==> exists event :: event in events && LossesOf(events, event.code) > USIZE_MAX
    ensures r.Some? ==> Sum(r.value) == Losses(events) && Tallied(r.value, events)
  {
    hide Sum, Tallied, Losses, LossesOf, EventsOk;
    var codes: map<string, nat> := map[];
    var i := 0;
    NothingSummed();
    while i < |events|
      invariant 0 <= i <= |events|
      invariant Sum(codes) == Losses(events[..i]) && Tallied(codes, events[..i])
      invariant forall code :: code in codes ==> codes[code] <= USIZE_MAX
    {
      var event := events[i];
      var before := if event.code in codes then codes[event.code] else 0;
      SumAdded(codes, event.code, event.count);
      SumAtLeast(codes[event.code := before + event.count], event.code);
      TalliedStep(codes, events, i);
      PrefixBounded(events, i + 1);
      LossesOfPrefix(events, i + 1, event.code);
      TallyOf(codes[event.code := before + event.count], events[..i + 1], event.code);
      if before + event.count > USIZE_MAX {
        assert event in events;
        return None;
      }
      codes := codes[event.code := before + event.count];
      i := i + 1;
    }
    assert events[..i] == events;
    forall event | event in events ensures LossesOf(events, event.code) <= USIZE_MAX {
      TallyOf(codes, events, event.code);
    }
    return Some(codes);
  }

  lemma TallyOf(codes: map<string, nat>, events: seq<Event>, code: string)
    requires Tallied(codes, events)
    ensures LossesOf(events, code) == if code in codes then codes[code] else 0
  {
    hide LossesOf;
  }

  lemma {:induction false} LossesOfPrefix(events: seq<Event>, k: nat, code: string)
    requires k <= |events|
    ensures LossesOf(events[..k], code) <= LossesOf(events, code)
    decreases |events|
  {
    if k == |events| {
      assert events[..k] == events;
    } else {
      var front := events[..|events| - 1];
      LossesOfPrefix(front, k, code);
      assert front[..k] == events[..k];
    }
  }

  lemma PrefixBounded(events: seq<Event>, k: nat)
    requires k <= |events|
    ensures EventsOk(events) ==> Losses(events[..k]) <= MAX_LOSS_TOTAL < USIZE_MAX
  {
    if EventsOk(events) {
      LossesBounded(events[..k]);
    }
  }

  lemma NothingSummed()
    ensures Sum(map[]) == 0 && Losses([]) == 0 && Tallied(map[], [])
  {
  }

  /** Adds the values of a map up; `None` when the sum does not fit the machine word. */
  method Total(codes: map<string, nat>) returns (r: Option<nat>)
    ensures r == if Sum(codes) <= USIZE_MAX then Some(Sum(codes)) else None
  {
    hide Sum;
    var left, total := codes, 0;
    NothingSummed();
    while left.Keys != {}
      invariant left.Keys <= codes.Keys && total + Sum(left) == Sum(codes) && total <= USIZE_MAX
      decreases |left|
    {
      var code :| code in left.Keys;
      SumWithout(left, code);
      if total + left[code] > USIZE_MAX {
        return None;
      }
      total := total + left[code];
      left := left - {code};
    }
    assert left == map[];
    return Some(total);
  }

  /** Everything there is to say about the check of a report with these events. */
  ghost predicate Evaluated(events: seq<Event>, readable: bool, budget: nat, r: CheckReport) {
    if !readable || !EventsOk(events) then r == INVALID
    else
      && r.total == Losses(events) <= MAX_LOSS_TOTAL
      && (r.passed <==> Losses(events) <= budget)
      && r.reasons == (if r.passed then [] else ["preservation_loss_detected"])
      && (r.codes.None? <==> events == [])
      && (r.codes.Some? ==> Sum(r.codes.value) == r.total && Tallied(r.codes.value, events))
  }

  /** `readable` says that the artifact could be read, parsed and has the right contract. */
  method Evaluate(events: seq<Event>, readable: bool, budget: nat) returns (r: CheckReport)
    ensures Evaluated(events, readable, budget, r)
  {
    hide Sum;
    if !readable || |events| > MAX_EVENTS {
      return INVALID;
    }
    var i := 0;
    while i < |events|
      invariant 0 <= i <= |events|
      invariant forall j :: 0 <= j < i ==> EventOk(events[j])
    {
      if events[i].count == 0 || events[i].count > MAX_LOSS_COUNT {
        return INVALID;
      }
      i := i + 1;
    }
    PrefixBounded(events, |events|);
    assert events[..|events|] == events;
    var codes := PerCode(events);
    var total := Total(codes.value);
    var passed := total.value <= budget;
    assert events != [] ==> events[0].code in CodesOf(events);
    return CheckReport(passed, if passed then [] else ["preservation_loss_detected"], total.value,
                       if codes.value == map[] then None else Some(codes.value));
  }

  // ----- The invariant check of the finished certification report ------------------------

  /** Holds when the later consistency check lets the preservation section through. */
  ghost predicate InvariantHolds(r: CheckReport, overallFailed: bool) {
    && (r.passed <==> r.reasons == [])
    && (r.codes.Some? ==> Sum(r.codes.value) == r.total)
    && (!r.passed ==> overallFailed)
  }

  /** Reports of the check never trip the invariant, provided a failure fails the certification. */
  lemma EvaluatedIsConsistent(events: seq<Event>, readable: bool, budget: nat, r: CheckReport, overallFailed: bool)
    requires Evaluated(events, readable, budget, r)
    ensures InvariantHolds(r, overallFailed) <==> (!r.passed ==> overallFailed)
  {
  }

  /** The order of the events changes neither the total nor the verdict. */
  lemma OrderIrrelevant(a: seq<Event>, b: seq<Event>, readable: bool, budget: nat, r: CheckReport, s: CheckReport)
    requires multiset(a) == multiset(b)
    requires Evaluated(a, readable, budget, r) && Evaluated(b, readable, budget, s)
    ensures r.total == s.total && r.passed == s.passed && r.reasons == s.reasons
  {
    LossesOfPermutation(a, b);
    if EventsOk(a) {
      SameOk(a, b);
    } else if EventsOk(b) {
      SameOk(b, a);
    }
  }

  lemma SameOk(a: seq<Event>, b: seq<Event>)
    requires multiset(a) == multiset(b) && EventsOk(a)
    ensures EventsOk(b)
  {
    assert |a| == |multiset(a)| == |b|;
    forall i | 0 <= i < |b| ensures EventOk(b[i]) {
      assert b[i] in multiset(a);
      var j :| 0 <= j < |a| && a[j] == b[i];
    }
  }
}
