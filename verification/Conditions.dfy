// setCondition of internal/controllers/kmpcertificate_controller.go:438-468.
module Conditions {
  import opened Basics

  datatype Condition = Condition(
    kind: string, status: bool, reason: string, message: string, generation: int, lastTransition: int)

  // What is recorded about a condition, apart from when.
  datatype Report = Report(kind: string, status: bool, reason: string, message: string, generation: int)

  predicate Says(c: Condition, r: Report) {
    c.kind == r.kind && c.status == r.status && c.reason == r.reason && c.message == r.message && c.generation == r.generation
  }

  function Updated(c: Condition, r: Report, now: int): Condition {
    Condition(c.kind, r.status, r.reason, r.message, r.generation, if c.status != r.status then now else c.lastTransition)
  }

  function SetCondition(conditions: seq<Condition>, r: Report, now: int): seq<Condition> {
    if conditions == [] then [Condition(r.kind, r.status, r.reason, r.message, r.generation, now)]
    else if conditions[0].kind == r.kind then [Updated(conditions[0], r, now)] + conditions[1..]
    else [conditions[0]] + SetCondition(conditions[1..], r, now)
  }

  // The slice of conditions setCondition edits or appends to.
  class ConditionList {
    var items: seq<Condition>

    constructor (items: seq<Condition>)
      ensures this.items == items
    {
      this.items := items;
    }

    method Set(r: Report, now: int) returns (changed: bool)
      modifies this
      ensures items == SetCondition(old(items), r, now)
      ensures changed <==> items != old(items)
    {
      SetConditionUnlessSaid(items, r, now);
      for i := 0 to |items|
        invariant items == old(items)
        invariant forall j :: 0 <= j < i ==> items[j].kind != r.kind
      {
        var existing := items[i];
        if existing.kind != r.kind {
          continue;
        }
        SetConditionAt(items, r, now, i);
        if Says(existing, r) {
          return false;
        }
        if existing.status != r.status {
          existing := existing.(lastTransition := now);
        }
        existing := existing.(status := r.status, reason := r.reason, message := r.message, generation := r.generation);
        items := items[i := existing];
        assert items[i] != old(items)[i];
        return true;
      }
      SetConditionAt(items, r, now, |items|);
      items := items + [Condition(r.kind, r.status, r.reason, r.message, r.generation, now)];
      return true;
    }
  }

  // The first condition of the type is edited, or one is appended.
  lemma {:induction false} SetConditionAt(conditions: seq<Condition>, r: Report, now: int, i: nat)
    requires i <= |conditions| && forall j :: 0 <= j < i ==> conditions[j].kind != r.kind
    requires i < |conditions| ==> conditions[i].kind == r.kind
    ensures SetCondition(conditions, r, now) ==
      if i < |conditions| then conditions[i := Updated(conditions[i], r, now)]
      else conditions + [Condition(r.kind, r.status, r.reason, r.message, r.generation, now)]
  {
    if i > 0 {
      SetConditionAt(conditions[1..], r, now, i - 1);
      assert conditions == [conditions[0]] + conditions[1..];
    }
  }

  lemma SetConditionUnlessSaid(conditions: seq<Condition>, r: Report, now: int)
    ensures forall c :: Says(c, r) ==> Updated(c, r, now) == c
  {}

  ghost predicate OnePerKind(conditions: seq<Condition>) {
    forall i, j :: 0 <= i < j < |conditions| ==> conditions[i].kind != conditions[j].kind
  }

  // The conditions of a type, in order.
  function OfKind(conditions: seq<Condition>, kind: string): seq<Condition> {
    if conditions == [] then []
    else (if conditions[0].kind == kind then [conditions[0]] else []) + OfKind(conditions[1..], kind)
  }

  lemma {:induction false} SetConditionAddsOnlyItsKind(conditions: seq<Condition>, r: Report, now: int)
    ensures forall c :: c in SetCondition(conditions, r, now) ==> c.kind == r.kind || c in conditions
  {
    if conditions != [] && conditions[0].kind != r.kind {
      SetConditionAddsOnlyItsKind(conditions[1..], r, now);
    }
  }

  // Setting a condition keeps one per type.
  lemma {:induction false} SetConditionKeepsOnePerKind(conditions: seq<Condition>, r: Report, now: int)
    requires OnePerKind(conditions)
    ensures OnePerKind(SetCondition(conditions, r, now))
  {
    if conditions != [] && conditions[0].kind != r.kind {
      SetConditionKeepsOnePerKind(conditions[1..], r, now);
      SetConditionAddsOnlyItsKind(conditions[1..], r, now);
      var rest := SetCondition(conditions[1..], r, now);
      forall j | 0 <= j < |rest| ensures rest[j].kind != conditions[0].kind {
        assert rest[j] in rest;
      }
    }
  }

  // Other types are left alone; the type set says what was reported from then on, and its
  // transition time moves exactly when the status changes or the condition is new.
  lemma {:induction false} SetConditionSetsOne(conditions: seq<Condition>, r: Report, now: int)
    ensures forall kind :: kind != r.kind ==> OfKind(SetCondition(conditions, r, now), kind) == OfKind(conditions, kind)
    ensures var was, shown := OfKind(conditions, r.kind), OfKind(SetCondition(conditions, r, now), r.kind);
      && |shown| == (if was == [] then 1 else |was|)
      && Says(shown[0], r)
      && (shown[0].lastTransition == if was != [] && was[0].status == r.status then was[0].lastTransition else now)
      && (was != [] ==> shown[1..] == was[1..])
  {
    if conditions != [] {
      var result := SetCondition(conditions, r, now);
      if conditions[0].kind == r.kind {
        assert result[1..] == conditions[1..];
      } else {
        SetConditionSetsOne(conditions[1..], r, now);
        assert result[1..] == SetCondition(conditions[1..], r, now);
      }
    }
  }

  // Reporting the same again changes nothing, at any later time.
  lemma {:induction false} SetConditionIsIdempotent(conditions: seq<Condition>, r: Report, now: int, later: int)
    ensures SetCondition(SetCondition(conditions, r, now), r, later) == SetCondition(conditions, r, now)
  {
    if conditions != [] && conditions[0].kind != r.kind {
      SetConditionIsIdempotent(conditions[1..], r, now, later);
      var once := SetCondition(conditions, r, now);
      assert once[1..] == SetCondition(conditions[1..], r, now);
    }
  }

  // Any sequence of reports keeps one condition per type, and each type shows the last
  // report about it.
  function SetAll(conditions: seq<Condition>, reports: seq<(Report, int)>): seq<Condition> {
    if reports == [] then conditions
    else SetCondition(SetAll(conditions, reports[..|reports| - 1]), reports[|reports| - 1].0, reports[|reports| - 1].1)
  }

  lemma {:induction false} SetAllShowsTheLastReports(conditions: seq<Condition>, reports: seq<(Report, int)>, i: nat)
    requires OnePerKind(conditions)
    requires i < |reports| && forall j :: i < j < |reports| ==> reports[j].0.kind != reports[i].0.kind
    ensures OnePerKind(SetAll(conditions, reports))
    ensures var shown := OfKind(SetAll(conditions, reports), reports[i].0.kind); |shown| >= 1 && Says(shown[0], reports[i].0)
    decreases |reports|
  {
    var n := |reports| - 1;
    var earlier, kind := SetAll(conditions, reports[..n]), reports[i].0.kind;
    SetAllKeepsOnePerKind(conditions, reports);
    SetConditionSetsOne(earlier, reports[n].0, reports[n].1);
    if i < n {
      assert reports[..n][i] == reports[i];
      SetAllShowsTheLastReports(conditions, reports[..n], i);
      assert OfKind(SetAll(conditions, reports), kind) == OfKind(earlier, kind);
    }
  }

  lemma {:induction false} SetAllKeepsOnePerKind(conditions: seq<Condition>, reports: seq<(Report, int)>)
    requires OnePerKind(conditions)
    ensures OnePerKind(SetAll(conditions, reports))
    decreases |reports|
  {
    if reports != [] {
      var n := |reports| - 1;
      SetAllKeepsOnePerKind(conditions, reports[..n]);
      SetConditionKeepsOnePerKind(SetAll(conditions, reports[..n]), reports[n].0, reports[n].1);
    }
  }
}
