/**
 * The hit counter of a game. The program keeps it in an integer whose type
 * falls back to Rust's `i32`, while the number of rounds is a `u32`.
 */
module Score {
  import opened Base

  /** The largest `i32`. */
  const I32Max: int := 0x7FFF_FFFF

  /** The largest `u32`, and so the most rounds a game can have. */
  const U32Max: int := 0xFFFF_FFFF

  /**
   * The number of correct rounds in a record of per-round outcomes, counted
   * the way the round loop counts them: one more for each correct round, in order.
   */
  function Hits(outcomes: seq<bool>): (n: nat)
    ensures n <= |outcomes|
    ensures n == |outcomes| <==> forall i :: 0 <= i < |outcomes| ==> outcomes[i]
  {
    if outcomes == [] then 0
    else
      var prefix := outcomes[..|outcomes| - 1];
      assert outcomes == prefix + [outcomes[|outcomes| - 1]];
      Hits(prefix) + (if outcomes[|outcomes| - 1] then 1 else 0)
  }

  /** Appending one round's outcome adds one hit exactly when that round was correct. */
  lemma HitsAppend(outcomes: seq<bool>, correct: bool)
    ensures Hits(outcomes + [correct]) == Hits(outcomes) + (if correct then 1 else 0)
  {
    assert (outcomes + [correct])[..|outcomes|] == outcomes;
  }

  /** The hit count is the number of `true` outcomes, whatever their order. */
  lemma {:induction false} HitsCountTrueOutcomes(outcomes: seq<bool>)
    ensures Hits(outcomes) == multiset(outcomes)[true]
  {
    if outcomes != [] {
      var prefix := outcomes[..|outcomes| - 1];
      HitsCountTrueOutcomes(prefix);
      assert outcomes == prefix + [outcomes[|outcomes| - 1]];
      assert multiset(outcomes) == multiset(prefix) + multiset{outcomes[|outcomes| - 1]};
    }
  }

  /**
   * The counter as the program has it: an `i32` incremented with an
   * overflow check (the debug-build behaviour; `None` is the overflow panic).
   */
  function HitsI32(outcomes: seq<bool>): (r: Option<int>)
    ensures r.Some? ==> 0 <= r.value <= I32Max
  {
    if outcomes == [] then Some(0)
    else
      match HitsI32(outcomes[..|outcomes| - 1])
      case None => None
      case Some(h) =>
        if !outcomes[|outcomes| - 1] then Some(h)
        else if h == I32Max then None
        else Some(h + 1)
  }

  /** The `i32` counter agrees with the true count exactly while that count fits in an `i32`. */
  lemma {:induction false} HitsI32AgreesWhileItFits(outcomes: seq<bool>)
    ensures Hits(outcomes) <= I32Max ==> HitsI32(outcomes) == Some(Hits(outcomes))
    ensures Hits(outcomes) > I32Max ==> HitsI32(outcomes) == None
  {
    if outcomes != [] {
      var prefix := outcomes[..|outcomes| - 1];
      HitsI32AgreesWhileItFits(prefix);
      assert outcomes == prefix + [outcomes[|outcomes| - 1]];
      HitsAppend(prefix, outcomes[|outcomes| - 1]);
    }
  }

  /**
   * A game of 2^31 rounds, a round count a `u32` holds, all guessed right,
   * overflows the program's counter on its last round.
   */
  lemma AllCorrectLongGameOverflows(outcomes: seq<bool>)
    requires |outcomes| == I32Max + 1 <= U32Max
    requires forall i :: 0 <= i < |outcomes| ==> outcomes[i]
    ensures HitsI32(outcomes) == None
  {
    HitsI32AgreesWhileItFits(outcomes);
  }

  /** The indices of the correct rounds. */
  function CorrectRounds(outcomes: seq<bool>): set<int> {
    set i | 0 <= i < |outcomes| && outcomes[i]
  }

  /** One more round adds its own index to the correct rounds when it was correct. */
  lemma CorrectRoundsAppend(outcomes: seq<bool>, correct: bool)
    ensures CorrectRounds(outcomes + [correct])
         == CorrectRounds(outcomes) + (if correct then {|outcomes|} else {})
  {
    var s := outcomes + [correct];
    assert forall i :: 0 <= i < |outcomes| ==> s[i] == outcomes[i];
  }

  /** The hit count is the number of rounds whose outcome is a correct guess. */
  lemma {:induction false} HitsCountCorrectRounds(outcomes: seq<bool>)
    ensures Hits(outcomes) == |CorrectRounds(outcomes)|
  {
    if outcomes == [] {
      assert CorrectRounds(outcomes) == {};
    } else {
      var k := |outcomes| - 1;
      var prefix := outcomes[..k];
      assert outcomes == prefix + [outcomes[k]];
      HitsCountCorrectRounds(prefix);
      HitsAppend(prefix, outcomes[k]);
      CorrectRoundsAppend(prefix, outcomes[k]);
      assert k !in CorrectRounds(prefix);
    }
  }
}
