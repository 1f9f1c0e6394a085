/** Runs of any step function that may report something: final states, reports, and what follows
    for whole runs from what holds of single steps. */
module Traces {
  import opened Options

  function Final<S, E, T>(step: (S, E) -> (S, Option<T>), init: S, events: seq<E>): S {
    if events == [] then init else step(Final(step, init, events[..|events| - 1]), events[|events| - 1]).0
  }

  /** Everything reported along the run, oldest first. */
  function Reports<S, E, T>(step: (S, E) -> (S, Option<T>), init: S, events: seq<E>): seq<T> {
    if events == [] then [] else
      var n := |events| - 1;
      var report := step(Final(step, init, events[..n]), events[n]).1;
      var before := Reports(step, init, events[..n]);
      if report.Some? then before + [report.value] else before
  }

  function Keep<T>(wanted: T -> bool, items: seq<T>): seq<T> {
    if items == [] then [] else
      var n := |items| - 1;
      if wanted(items[n]) then Keep(wanted, items[..n]) + [items[n]] else Keep(wanted, items[..n])
  }

  function Drop<T>(unwanted: T -> bool, items: seq<T>): seq<T> {
    if items == [] then [] else
      var n := |items| - 1;
      if unwanted(items[n]) then Drop(unwanted, items[..n]) else Drop(unwanted, items[..n]) + [items[n]]
  }

  lemma FinalSnoc<S, E, T>(step: (S, E) -> (S, Option<T>), init: S, events: seq<E>, e: E)
    ensures Final(step, init, events + [e]) == step(Final(step, init, events), e).0
    ensures var r := step(Final(step, init, events), e).1;
      Reports(step, init, events + [e]) == if r.Some? then Reports(step, init, events) + [r.value] else Reports(step, init, events)
  {
    assert (events + [e])[..|events|] == events;
  }

  lemma FilterSnoc<T>(p: T -> bool, items: seq<T>, x: T)
    ensures Keep(p, items + [x]) == if p(x) then Keep(p, items) + [x] else Keep(p, items)
    ensures Drop(p, items + [x]) == if p(x) then Drop(p, items) else Drop(p, items) + [x]
  {
    assert (items + [x])[..|items|] == items;
  }

  lemma {:induction false} InvariantHolds<S(!new), E(!new), T>(
      step: (S, E) -> (S, Option<T>), init: S, events: seq<E>, inv: S -> bool)
    requires inv(init) && forall s, e | inv(s) :: inv(step(s, e).0)
    ensures inv(Final(step, init, events))
  {
    if events != [] {
      InvariantHolds(step, init, events[..|events| - 1], inv);
    }
  }

  /** Events that change nothing and report only marked things can be deleted from any run. */
  lemma {:induction false} NoiseLeavesNoTrace<S(!new), E(!new), T>(
      step: (S, E) -> (S, Option<T>), init: S, events: seq<E>, noise: E -> bool, marked: T -> bool)
    requires forall s, e | noise(e) :: step(s, e).0 == s && step(s, e).1.Some? && marked(step(s, e).1.value)
    requires forall s, e | !noise(e) && step(s, e).1.Some? :: !marked(step(s, e).1.value)
    ensures Final(step, init, Drop(noise, events)) == Final(step, init, events)
    ensures Reports(step, init, Drop(noise, events)) == Drop(marked, Reports(step, init, events))
  {
    if events != [] {
      var before, e := events[..|events| - 1], events[|events| - 1];
      NoiseLeavesNoTrace(step, init, before, noise, marked);
      var s, reported := Final(step, init, before), Reports(step, init, before);
      var report := step(s, e).1;
      if noise(e) {
        assert step(s, e).0 == s && marked(report.value);
        FilterSnoc(marked, reported, report.value);
      } else {
        FinalSnoc(step, init, Drop(noise, before), e);
        if report.Some? {
          assert !marked(report.value);
          FilterSnoc(marked, reported, report.value);
        } else {
          assert Reports(step, init, events) == reported;
        }
      }
    }
  }

  /** Even positions start, odd positions end. */
  predicate Alternating<T>(items: seq<T>, starts: T -> bool, ends: T -> bool) {
    forall i | 0 <= i < |items| :: if i % 2 == 0 then starts(items[i]) else ends(items[i])
  }

  /** A report either starts, ends or does neither, and the open flag moves with it. */
  predicate Follows<T>(wasOpen: bool, report: Option<T>, isOpen: bool, starts: T -> bool, ends: T -> bool) {
    if report.Some? && starts(report.value) then !wasOpen && isOpen && !ends(report.value)
    else if report.Some? && ends(report.value) then wasOpen && !isOpen
    else isOpen == wasOpen
  }

  lemma AlternatingAppend<T>(items: seq<T>, x: T, starts: T -> bool, ends: T -> bool)
    requires Alternating(items, starts, ends) && (if |items| % 2 == 0 then starts(x) else ends(x))
    ensures Alternating(items + [x], starts, ends) && (|items + [x]| % 2 == 1 <==> |items| % 2 == 0)
  {
  }

  lemma AlternatingGrows<T>(reported: seq<T>, report: Option<T>, wasOpen: bool, isOpen: bool,
                            starts: T -> bool, ends: T -> bool, either: T -> bool)
    requires report.Some? ==> (either(report.value) <==> starts(report.value) || ends(report.value))
    requires Alternating(Keep(either, reported), starts, ends) && (wasOpen <==> |Keep(either, reported)| % 2 == 1)
    requires Follows(wasOpen, report, isOpen, starts, ends)
    ensures var after := if report.Some? then reported + [report.value] else reported;
      Alternating(Keep(either, after), starts, ends) && (isOpen <==> |Keep(either, after)| % 2 == 1)
  {
    if report.Some? {
      FilterSnoc(either, reported, report.value);
      if either(report.value) {
        AlternatingAppend(Keep(either, reported), report.value, starts, ends);
      }
    }
  }

  /** When a start is reported exactly on opening and an end exactly on closing, they alternate. */
  lemma {:induction false} StartsAndEndsAlternate<S(!new), E(!new), T(!new)>(
      step: (S, E) -> (S, Option<T>), init: S, events: seq<E>,
      inv: S -> bool, open: S -> bool, allowed: E -> bool, starts: T -> bool, ends: T -> bool, either: T -> bool)
    requires inv(init) && !open(init) && forall i | 0 <= i < |events| :: allowed(events[i])
    requires forall t :: either(t) <==> starts(t) || ends(t)
    requires forall s, e | inv(s) && allowed(e) :: inv(step(s, e).0) && Follows(open(s), step(s, e).1, open(step(s, e).0), starts, ends)
    ensures inv(Final(step, init, events))
    ensures Alternating(Keep(either, Reports(step, init, events)), starts, ends)
    ensures open(Final(step, init, events)) <==> |Keep(either, Reports(step, init, events))| % 2 == 1
  {
    if events != [] {
      var before, e := events[..|events| - 1], events[|events| - 1];
      StartsAndEndsAlternate(step, init, before, inv, open, allowed, starts, ends, either);
      var s := Final(step, init, before);
      AlternatingGrows(Reports(step, init, before), step(s, e).1, open(s), open(step(s, e).0), starts, ends, either);
    }
  }
}
