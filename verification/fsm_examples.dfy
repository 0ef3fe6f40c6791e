/**
 * The engine on the small three-state machine S0, S1, S2 over the digits
 * '0' and '1' that the engine's own tests use, and on a partial table for
 * the same states.
 */
module FsmExamples {
  import opened Fsm

  const States: seq<string> := ["S0", "S1", "S2"]
  const Alphabet: seq<char> := ['0', '1']

  /** The complete table: S0 waits for a one, S1 for a zero, S2 is a sink. */
  const Full: Table<string, char> := map[
    "S0" := map['0' := "S0", '1' := "S1"],
    "S1" := map['0' := "S2", '1' := "S1"],
    "S2" := map['0' := "S2", '1' := "S2"]
  ]

  /** A partial table: S1 has no entry for '1' and S2 has an empty row. */
  const Partial: Table<string, char> := map[
    "S0" := map['0' := "S1"],
    "S1" := map['0' := "S2"],
    "S2" := map[]
  ]

  /** A run of "01" on the partial table reads '0' into S1 and then fails
      on '1'; the cursor stays on S1 rather than going back to S0. */
  lemma PartialRunKeepsCursor(m: Machine<string, char>)
    requires m.config == Config(States, Alphabet, "S0", ["S2"], Partial)
    ensures Run(m, "01") == Outcome(m.(current := "S1"), Err(NoTransitionForSymbol))
  {
    assert Step(m.config, "S0", '0') == Ok("S1");
    assert Step(m.config, "S1", '1') == Err(NoTransitionForSymbol);
    assert "01"[1..] == "1" && "1"[1..] == [];
  }

  /** A run that ends outside the accepting states succeeds, but the
      acceptance assertion then fails: "1" leads from S0 to S1. */
  lemma NonAcceptingEnd(m: Machine<string, char>)
    requires m.config == Config(States, Alphabet, "S0", ["S2"], Full)
    ensures Run(m, "1").result == Ok("S1")
    ensures GetFinalState(Run(m, "1").machine) == Err(NotAccepting)
  {
    assert Step(m.config, "S0", '1') == Ok("S1");
    assert "1"[1..] == [];
  }

  /** "10" leads from S0 through S1 to the accepting S2. */
  lemma AcceptingRun(m: Machine<string, char>)
    requires m.config == Config(States, Alphabet, "S0", ["S2"], Full)
    ensures Run(m, "10").result == Ok("S2")
    ensures GetFinalState(Run(m, "10").machine) == Ok("S2")
  {
    assert Step(m.config, "S0", '1') == Ok("S1");
    assert Step(m.config, "S1", '0') == Ok("S2");
    assert "10"[1..] == "0" && "0"[1..] == [];
  }

  /** The constructor's table check asks only for at least one row: a
      table whose one row is empty is accepted, and the machine built from
      it fails on its first symbol. */
  lemma EmptyRowAccepted(m: Machine<string, char>)
    requires m.config == Config(States, Alphabet, "S0", ["S2"], map["S0" := map[]])
    ensures Valid(m.config)
    ensures Run(m, "0").result == Err(NoTransitionForSymbol)
  {
    assert "0"[1..] == [];
  }
}
