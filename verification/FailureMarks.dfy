/** What a breaker's failure counter is about: failures, and what wipes them out. */
module FailureMarks {

  datatype Mark = Trip | Wipe

  /** Trips since the last wipe. */
  function TripsSinceWipe(marks: seq<Mark>): nat {
    if marks == [] || marks[|marks| - 1] == Wipe then 0 else 1 + TripsSinceWipe(marks[..|marks| - 1])
  }

  lemma MarkTrip(marks: seq<Mark>)
    ensures TripsSinceWipe(marks + [Trip]) == TripsSinceWipe(marks) + 1
    ensures TripsSinceWipe(marks + [Wipe]) == 0
  {
    assert (marks + [Trip])[..|marks|] == marks;
  }
}
