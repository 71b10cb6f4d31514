/** A loop over numbered places, one of which it is at before each round. */
module Walks {

  /** At the i-th place, or come to the end, or left by an error. */
  datatype Place = At(i: nat) | End | Error

  /** Where the round at each place leads. */
  type Rounds = seq<Place>

  predicate Closed(rounds: Rounds) {
    forall i | 0 <= i < |rounds| :: rounds[i].At? ==> rounds[i].i < |rounds|
  }

  function Onto(rounds: nat, i: nat): Place {
    if i < rounds then At(i) else End
  }

  function Walk(rounds: Rounds, n: nat): (p: Place)
    requires Closed(rounds)
    ensures p.At? ==> p.i < |rounds|
  {
    if n == 0 then Onto(|rounds|, 0)
    else
      var before := Walk(rounds, n - 1);
      if before.At? then rounds[before.i] else before
  }

  ghost predicate RunsForever(rounds: Rounds)
    requires Closed(rounds)
  {
    forall n: nat :: Walk(rounds, n).At?
  }

  lemma {:induction false} StaysStopped(rounds: Rounds, m: nat, n: nat)
    requires Closed(rounds) && m <= n && !Walk(rounds, m).At?
    ensures Walk(rounds, n) == Walk(rounds, m)
  {
    if m < n {
      StaysStopped(rounds, m, n - 1);
    }
  }

  lemma {:induction false} SamePlaceSameFuture(rounds: Rounds, a: nat, b: nat, k: nat)
    requires Closed(rounds) && Walk(rounds, a) == Walk(rounds, b)
    ensures Walk(rounds, a + k) == Walk(rounds, b + k)
  {
    if k > 0 {
      SamePlaceSameFuture(rounds, a, b, k - 1);
    }
  }

  /** A loop that comes back to a place never ends. */
  lemma {:induction false} ComesBack(rounds: Rounds, a: nat, b: nat, n: nat)
    requires Closed(rounds) && a < b
    requires Walk(rounds, a) == Walk(rounds, b) && Walk(rounds, b).At?
    ensures Walk(rounds, n).At?
  {
    if n <= b {
      if !Walk(rounds, n).At? {
        StaysStopped(rounds, n, b);
      }
    } else {
      SamePlaceSameFuture(rounds, a, b, n - b);
      ComesBack(rounds, a, b, a + (n - b));
    }
  }

  ghost predicate Distinct(rounds: Rounds, n: nat)
    requires Closed(rounds)
  {
    forall a: nat, b: nat | a < b < n :: Walk(rounds, a) != Walk(rounds, b)
  }

  /** The places of the first `n` rounds: if they are different, there are n of them. */
  lemma {:induction false} FewPlaces(rounds: Rounds, n: nat) returns (places: set<nat>)
    requires Closed(rounds) && Distinct(rounds, n)
    requires forall a: nat | a < n :: Walk(rounds, a).At?
    ensures |places| == n
    ensures forall i | i in places :: i < |rounds| && BeenAt(rounds, n, i)
  {
    if n == 0 {
      places := {};
    } else {
      var before := FewPlaces(rounds, n - 1);
      var last := Walk(rounds, n - 1);
      assert !BeenAt(rounds, n - 1, last.i);
      places := before + {last.i};
      forall i | i in places ensures BeenAt(rounds, n, i) {
        if i == last.i {
          assert Walk(rounds, n - 1) == At(i);
        } else {
          var a: nat :| a < n - 1 && Walk(rounds, a) == At(i);
        }
      }
    }
  }

  ghost predicate BeenAt(rounds: Rounds, n: nat, i: nat)
    requires Closed(rounds)
  {
    exists a: nat :: a < n && Walk(rounds, a) == At(i)
  }

  lemma {:induction false} Below(s: set<nat>, n: nat)
    requires forall i | i in s :: i < n
    ensures |s| <= n
  {
    if n > 0 {
      Below(s - {n - 1}, n - 1);
    } else {
      assert s == {};
    }
  }

  lemma {:induction false} FirstReturn(rounds: Rounds, n: nat) returns (a: nat, b: nat)
    requires Closed(rounds) && !Distinct(rounds, n)
    ensures a < b < n && Walk(rounds, a) == Walk(rounds, b)
    ensures Distinct(rounds, b)
  {
    if Distinct(rounds, n - 1) {
      a, b :| a < b < n && Walk(rounds, a) == Walk(rounds, b);
      assert b == n - 1;
    } else {
      a, b := FirstReturn(rounds, n - 1);
    }
  }

  /** A loop that has not stopped after as many rounds as there are places has come back
      to one. */
  lemma LongWalkReturns(rounds: Rounds) returns (a: nat, b: nat)
    requires Closed(rounds) && Walk(rounds, |rounds|).At?
    ensures a < b && Walk(rounds, a) == Walk(rounds, b)
    ensures forall m: nat | m <= b :: Walk(rounds, m).At?
    ensures Distinct(rounds, b)
  {
    var n := |rounds|;
    forall m: nat | m <= n ensures Walk(rounds, m).At? {
      if !Walk(rounds, m).At? {
        StaysStopped(rounds, m, n);
      }
    }
    if Distinct(rounds, n + 1) {
      var places := FewPlaces(rounds, n + 1);
      Below(places, n);
    }
    a, b := FirstReturn(rounds, n + 1);
  }

  /** Rounds `a` and `b` are at different places and lead to the same one. */
  ghost predicate Meet(rounds: Rounds, a: nat, b: nat)
    requires Closed(rounds)
  {
    var p, q := Walk(rounds, a), Walk(rounds, b);
    a < b && p.At? && q.At? && p != q && rounds[p.i] == rounds[q.i] && rounds[p.i].At?
  }

  lemma GoesOn(rounds: Rounds, a: nat, b: nat)
    requires Closed(rounds) && a < b && Walk(rounds, b).At?
    ensures Walk(rounds, a).At? && rounds[Walk(rounds, a).i].At?
  {
    if !Walk(rounds, a).At? {
      StaysStopped(rounds, a, b);
    } else if !Walk(rounds, a + 1).At? {
      StaysStopped(rounds, a + 1, b);
    }
  }

  lemma MeetingRunsForever(rounds: Rounds, a: nat, b: nat)
    requires Closed(rounds) && Meet(rounds, a, b)
    ensures RunsForever(rounds)
  {
    assert Walk(rounds, a + 1) == Walk(rounds, b + 1);
    forall n: nat ensures Walk(rounds, n).At? {
      ComesBack(rounds, a + 1, b + 1, n);
    }
  }

  lemma NeverBackAtTheStart(rounds: Rounds, n: nat)
    requires Closed(rounds) && n > 0 && forall i | 0 <= i < |rounds| :: rounds[i] != At(0)
    ensures Walk(rounds, n) != At(0)
    decreases n
  {
    if !Walk(rounds, n - 1).At? && n > 1 {
      NeverBackAtTheStart(rounds, n - 1);
    }
  }

  /** When no round leads to the first place: the loop runs for ever exactly if two rounds
      at different places lead to the same one, and exactly if it has not stopped after as
      many rounds as there are places. */
  lemma RunsForeverIff(rounds: Rounds)
    requires Closed(rounds) && forall i | 0 <= i < |rounds| :: rounds[i] != At(0)
    ensures RunsForever(rounds) <==> exists a: nat, b: nat :: Meet(rounds, a, b)
    ensures RunsForever(rounds) <==> Walk(rounds, |rounds|).At?
  {
    if a: nat, b: nat :| Meet(rounds, a, b) {
      MeetingRunsForever(rounds, a, b);
    }
    if Walk(rounds, |rounds|).At? {
      var first, second := LongWalkReturns(rounds);
      NeverBackAtTheStart(rounds, second);
      assert Walk(rounds, first - 1) != Walk(rounds, second - 1);
      assert Meet(rounds, first - 1, second - 1);
      MeetingRunsForever(rounds, first - 1, second - 1);
    }
  }
}
