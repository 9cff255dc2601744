/**
  Ingests of one account interleaved. A run that declares the account upserts its row first, and so holds
  the row's lock to its end; a run that only mentions it reads the row without locking it. Either writes the
  watermark, later, on the strength of what it read.
 */
module WatermarkRaces {
  import opened Prelude

  datatype Ingesting = Ingesting(declared: bool, seen: Option<int>, written: Option<int>)

  datatype State = State(watermark: Option<int>, holder: Option<nat>, runs: map<nat, Ingesting>)

  datatype Event =
    | Resolve(id: nat, declared: bool)
    | Advance(id: nat, to: int)
    | Commit(id: nat)
    | Rollback(id: nat)

  predicate Below(w: Option<int>, to: int) {
    w.None? || w.value < to
  }

  predicate LockFor(s: State, id: nat) {
    s.holder.None? || s.holder == Some(id)
  }

  predicate Enabled(s: State, e: Event) {
    match e
    case Resolve(id, declared) => id !in s.runs && (declared ==> s.holder.None?)
    case Advance(id, to) =>
      && id in s.runs && s.runs[id].written.None?
      && (Below(s.runs[id].seen, to) ==> LockFor(s, id))
    case Commit(id) => id in s.runs
    case Rollback(id) => id in s.runs
  }

  function Release(s: State, id: nat): State {
    s.(holder := if s.holder == Some(id) then None else s.holder, runs := s.runs - {id})
  }

  /** The guard compares with what the run read, the update does not look at the row again. */
  function Apply(s: State, e: Event): State
    requires Enabled(s, e)
  {
    match e
    case Resolve(id, declared) =>
      s.(holder := if declared then Some(id) else s.holder,
         runs := s.runs[id := Ingesting(declared, s.watermark, None)])
    case Advance(id, to) =>
      if Below(s.runs[id].seen, to)
      then s.(holder := Some(id), runs := s.runs[id := s.runs[id].(written := Some(to))]) else s
    case Commit(id) =>
      Release(if s.runs[id].written.Some? then s.(watermark := s.runs[id].written) else s, id)
    case Rollback(id) => Release(s, id)
  }

  function Trace(s: State, events: seq<Event>): State {
    if events == [] then s
    else
      var before, e := Trace(s, events[..|events| - 1]), events[|events| - 1];
      if Enabled(before, e) then Apply(before, e) else before
  }

  function Initial(watermark: Option<int>): State {
    State(watermark, None, map[])
  }

  /** The runs that wrote or declared the account are the lock's holder; a declared run's read is current. */
  ghost predicate Inv(s: State) {
    && (forall id :: id in s.runs && (s.runs[id].declared || s.runs[id].written.Some?) ==> s.holder == Some(id))
    && (s.holder.Some? ==>
          && s.holder.value in s.runs
          && (s.runs[s.holder.value].declared || s.runs[s.holder.value].written.Some?))
    && (forall id :: id in s.runs && s.runs[id].declared ==> s.runs[id].seen == s.watermark)
    && (forall id :: id in s.runs && s.runs[id].written.Some? ==> Below(s.runs[id].seen, s.runs[id].written.value))
  }

  lemma StepKeepsInv(s: State, e: Event)
    requires Inv(s) && Enabled(s, e)
    ensures Inv(Apply(s, e))
  {
  }

  lemma {:induction false} TraceKeepsInv(s: State, events: seq<Event>)
    requires Inv(s)
    ensures Inv(Trace(s, events))
  {
    hide Inv, Enabled, Apply;
    if events != [] {
      var n := |events| - 1;
      TraceKeepsInv(s, events[..n]);
      if Enabled(Trace(s, events[..n]), events[n]) {
        StepKeepsInv(Trace(s, events[..n]), events[n]);
      }
    }
  }

  predicate AtLeast(w: Option<int>, v: Option<int>) {
    v.None? || (w.Some? && v.value <= w.value)
  }

  lemma Extend(s: State, events: seq<Event>, e: Event)
    ensures var before := Trace(s, events);
            Trace(s, events + [e]) == if Enabled(before, e) then Apply(before, e) else before
  {
    hide Enabled, Apply;
    assert (events + [e])[..|events|] == events;
  }

  /** A run writes the date exactly when it saw none or an earlier one. */
  lemma WritesExactly(s: State, id: nat, to: int)
    requires Enabled(s, Advance(id, to))
    ensures Apply(s, Advance(id, to)).runs[id].written == Some(to) <==>
              s.runs[id].seen.None? || s.runs[id].seen.value < to
  {
  }

  /**
    The one way the watermark falls: a run that did not declare the account commits a date below the
    stored one, which rose after that run had read it.
   */
  lemma FallsExactly(s: State, e: Event)
    requires Inv(s) && Enabled(s, e)
    ensures !AtLeast(Apply(s, e).watermark, s.watermark) <==>
              && e.Commit? && !s.runs[e.id].declared && s.runs[e.id].written.Some?
              && s.watermark.Some? && s.runs[e.id].written.value < s.watermark.value
    ensures !AtLeast(Apply(s, e).watermark, s.watermark) ==> s.runs[e.id].seen != s.watermark
  {
  }

  ghost predicate AllDeclare(events: seq<Event>) {
    forall e :: e in events && e.Resolve? ==> e.declared
  }

  /** When every run declares the account the watermark never falls, however the runs interleave. */
  lemma {:induction false} DeclaredRunsNeverLower(s: State, events: seq<Event>)
    requires Inv(s) && forall id :: id in s.runs ==> s.runs[id].declared
    requires AllDeclare(events)
    ensures AtLeast(Trace(s, events).watermark, s.watermark)
    ensures forall id :: id in Trace(s, events).runs ==> Trace(s, events).runs[id].declared
  {
    hide Inv;
    if events != [] {
      var n := |events| - 1;
      assert events == events[..n] + [events[n]];
      DeclaredRunsNeverLower(s, events[..n]);
      TraceKeepsInv(s, events[..n]);
      var before := Trace(s, events[..n]);
      if Enabled(before, events[n]) {
        FallsExactly(before, events[n]);
      }
    }
  }

  /** Two runs that only mention the account, both begun at 5: one takes it to 9, the other back to 7. */
  lemma MentioningRunsCanLower()
    ensures var first := [Resolve(0, false)] + [Resolve(1, false)] + [Advance(0, 9)] + [Commit(0)];
            && Trace(Initial(Some(5)), first).watermark == Some(9)
            && Trace(Initial(Some(5)), first + [Advance(1, 7)] + [Commit(1)]).watermark == Some(7)
  {
    var s := Initial(Some(5));
    var two := [Resolve(0, false)] + [Resolve(1, false)];
    var first := two + [Advance(0, 9)] + [Commit(0)];
    assert [] + [Resolve(0, false)] == [Resolve(0, false)];
    Extend(s, [], Resolve(0, false));
    Extend(s, [Resolve(0, false)], Resolve(1, false));
    Extend(s, two, Advance(0, 9));
    Extend(s, two + [Advance(0, 9)], Commit(0));
    Extend(s, first, Advance(1, 7));
    Extend(s, first + [Advance(1, 7)], Commit(1));
  }

  // ----- when the watermark can fall -----

  /** After these steps the next one lowers the watermark. */
  predicate Lowers(s: State, events: seq<Event>, e: Event) {
    var before := Trace(s, events);
    Enabled(before, e) && !AtLeast(Apply(before, e).watermark, before.watermark)
  }

  /** Some continuation, in which every newcomer declares the account, lowers the watermark at its last step. */
  ghost predicate CanFall(s: State) {
    exists events, e :: AllDeclare(events) && Lowers(s, events, e)
  }

  /** A run under way that does not declare the account and has yet to write, or has written below the mark. */
  predicate Risky(r: Ingesting, watermark: Option<int>) {
    && !r.declared
    && (r.written.None? || (watermark.Some? && r.written.value < watermark.value))
  }

  ghost predicate Exposed(s: State) {
    exists id :: id in s.runs && Risky(s.runs[id], s.watermark)
  }

  /** With no such run, no step lowers the watermark, and only a newcomer can be such a run. */
  lemma UnexposedStep(s: State, e: Event)
    requires Inv(s) && Enabled(s, e) && !Exposed(s) && (e.Resolve? ==> e.declared)
    ensures AtLeast(Apply(s, e).watermark, s.watermark) && !Exposed(Apply(s, e))
  {
    var t := Apply(s, e);
    FallsExactly(s, e);
    if e.Commit? {
      assert !Risky(s.runs[e.id], s.watermark);
    }
    forall id | id in t.runs ensures !Risky(t.runs[id], t.watermark) {
      if id in s.runs {
        assert !Risky(s.runs[id], s.watermark);
      }
    }
  }

  lemma {:induction false} UnexposedStays(s: State, events: seq<Event>)
    requires Inv(s) && !Exposed(s) && AllDeclare(events)
    ensures !Exposed(Trace(s, events))
  {
    hide Inv, Exposed, Enabled, Apply;
    if events != [] {
      var n := |events| - 1;
      assert events == events[..n] + [events[n]];
      UnexposedStays(s, events[..n]);
      TraceKeepsInv(s, events[..n]);
      if Enabled(Trace(s, events[..n]), events[n]) {
        UnexposedStep(Trace(s, events[..n]), events[n]);
      }
    }
  }

  lemma {:induction false} FreshId(ids: set<nat>) returns (id: nat)
    ensures forall x :: x in ids ==> x < id
  {
    if ids == {} {
      id := 0;
    } else {
      var x :| x in ids;
      var rest := FreshId(ids - {x});
      id := if x < rest then rest else x + 1;
      assert forall y :: y in ids ==> y == x || y in ids - {x};
    }
  }

  /** A newcomer that declares the account, and takes its watermark to a later date. */
  lemma Overtake(s: State, newcomer: nat, date: int)
    requires newcomer !in s.runs && s.holder.None? && Below(s.watermark, date)
    ensures Trace(s, [Resolve(newcomer, true)] + [Advance(newcomer, date)] + [Commit(newcomer)])
            == s.(watermark := Some(date))
  {
    assert [] + [Resolve(newcomer, true)] == [Resolve(newcomer, true)];
    Extend(s, [], Resolve(newcomer, true));
    Extend(s, [Resolve(newcomer, true)], Advance(newcomer, date));
    Extend(s, [Resolve(newcomer, true)] + [Advance(newcomer, date)], Commit(newcomer));
    hide Trace;
    assert s.runs[newcomer := Ingesting(true, s.watermark, Some(date))] - {newcomer} == s.runs;
  }

  /** Freeing the lock, if some other run holds it. */
  lemma Unlock(s: State, id: nat) returns (events: seq<Event>)
    requires Inv(s) && id in s.runs && s.runs[id].written.None? && !s.runs[id].declared
    ensures AllDeclare(events)
    ensures var t := Trace(s, events); Inv(t) && t.holder.None? && id in t.runs && t.runs[id] == s.runs[id]
  {
    if s.holder.None? {
      events := [];
    } else {
      var h := s.holder.value;
      events := [Rollback(h)];
      assert [] + [Rollback(h)] == events;
      Extend(s, [], Rollback(h));
    }
    TraceKeepsInv(s, events);
  }

  lemma {:induction false} Compose(s: State, first: seq<Event>, rest: seq<Event>)
    ensures Trace(s, first + rest) == Trace(Trace(s, first), rest)
  {
    hide Enabled, Apply;
    if rest == [] {
      assert first + rest == first;
    } else {
      var n := |rest| - 1;
      assert (first + rest)[..|first| + n] == first + rest[..n];
      Compose(s, first, rest[..n]);
    }
  }

  lemma CommitLowers(s: State, id: nat)
    requires id in s.runs && s.runs[id].written.Some?
    requires s.watermark.Some? && s.runs[id].written.value < s.watermark.value
    ensures Lowers(s, [], Commit(id))
  {
  }

  /** A run that has yet to write is overtaken by a newcomer, and then writes a date of its own. */
  lemma LateWriteLowers(s: State, id: nat) returns (events: seq<Event>)
    requires Inv(s) && id in s.runs && !s.runs[id].declared && s.runs[id].written.None?
    ensures AllDeclare(events) && Lowers(s, events, Commit(id))
  {
    hide Inv, Trace;
    var freed := Unlock(s, id);
    var t := Trace(s, freed);
    var seen := t.runs[id].seen;
    var to := if seen.None? then 0 else seen.value + 1;
    var date := if t.watermark.Some? && t.watermark.value > to then t.watermark.value + 1 else to + 1;
    var newcomer := FreshId(t.runs.Keys);
    var overtaking := [Resolve(newcomer, true)] + [Advance(newcomer, date)] + [Commit(newcomer)];
    Overtake(t, newcomer, date);
    Compose(s, freed, overtaking);
    Extend(s, freed + overtaking, Advance(id, to));
    events := freed + overtaking + [Advance(id, to)];
  }

  /**
    With newcomers that all declare the account, the watermark can fall from here on if and only if a run
    under way does not declare it and has yet to write its date, or has written one below the watermark.
   */
  lemma FallPossibleExactly(s: State)
    requires Inv(s)
    ensures CanFall(s) <==> Exposed(s)
  {
    hide Inv, Trace, Enabled, Apply;
    if id :| id in s.runs && Risky(s.runs[id], s.watermark) {
      if s.runs[id].written.None? {
        var events := LateWriteLowers(s, id);
      } else {
        CommitLowers(s, id);
        assert AllDeclare([]);
      }
    } else {
      forall events, e | AllDeclare(events) ensures !Lowers(s, events, e) {
        UnexposedNeverLowers(s, events, e);
      }
    }
  }

  lemma UnexposedNeverLowers(s: State, events: seq<Event>, e: Event)
    requires Inv(s) && !Exposed(s) && AllDeclare(events)
    ensures !Lowers(s, events, e)
  {
    hide Inv, Exposed;
    UnexposedStays(s, events);
    TraceKeepsInv(s, events);
    var before := Trace(s, events);
    if Enabled(before, e) && (e.Resolve? ==> e.declared) {
      UnexposedStep(before, e);
    }
  }
}
