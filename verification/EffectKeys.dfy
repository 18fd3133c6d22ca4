/** The idempotency keys of a run's provider calls. The key of a run does not mention the attempt, so every
    execution of the run forwards the same one; an executor that calls in rounds adds the round's number. */
module EffectKeys {

  // The single call of an execution, or one of the rounds of an execution that may use tools.
  datatype Call = Whole | Round(index: nat)

  const MAX_ROUNDS: nat := 5

  predicate InRange(call: Call) {
    call.Round? ==> call.index < MAX_ROUNDS
  }

  function RunKey(run: string): string {
    "run:" + run + ":primary"
  }

  // One digit is enough for the number of a round.
  function Digit(i: nat): char
    requires i < 10
  {
    '0' + i as char
  }

  function CallKey(run: string, call: Call): string
    requires InRange(call)
  {
    match call
    case Whole => RunKey(run)
    case Round(index) => RunKey(run) + "-" + [Digit(index)]
  }

  lemma RunOfKey(run: string)
    ensures |RunKey(run)| == |run| + 12 && RunKey(run)[4..4 + |run|] == run
    ensures RunKey(run)[|RunKey(run)| - 1] == 'y'
  {
  }

  lemma RunKeyIsInjective(a: string, b: string)
    requires RunKey(a) == RunKey(b)
    ensures a == b
  {
    RunOfKey(a);
    RunOfKey(b);
  }

  lemma RoundOfKey(run: string, index: nat)
    requires index < MAX_ROUNDS
    ensures var key := CallKey(run, Round(index));
            |key| == |RunKey(run)| + 2 && key[|key| - 1] == Digit(index) && key[..|key| - 2] == RunKey(run)
  {
  }

  // Different runs, or different calls of one run, never share a key.
  lemma KeysNeverCollide(a: string, c: Call, b: string, d: Call)
    requires InRange(c) && InRange(d)
    ensures CallKey(a, c) == CallKey(b, d) <==> a == b && c == d
  {
    if CallKey(a, c) == CallKey(b, d) {
      RunOfKey(a);
      RunOfKey(b);
      match (c, d)
      case (Whole, Whole) => RunKeyIsInjective(a, b);
      case (Round(i), Round(j)) =>
        RoundOfKey(a, i);
        RoundOfKey(b, j);
        RunKeyIsInjective(a, b);
      case (Whole, Round(j)) => RoundOfKey(b, j);
      case (Round(i), Whole) => RoundOfKey(a, i);
    }
  }
}
