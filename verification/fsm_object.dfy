/**
 * The engine as the Python `FSM` class (fsm.py) exposes it: an object whose
 * only mutable field is the cursor. Each method does what the Python
 * method of the same name does, statement by
 * statement, and its postcondition says that it agrees with the functional
 * definition of the same operation in module Fsm.
 */
module FsmObject {
  import opened Fsm

  class StateMachine<S(==), A(==)> {
    const config: Config<S, A>
    var current: S

    /** The object's state as a machine value. */
    function Snapshot(): Machine<S, A>
      reads this
    {
      Machine(config, current)
    }

    /** The class invariant: the configuration passed the constructor's
        checks and the cursor is a declared state. */
    ghost predicate Invariant()
      reads this
    {
      Inv(Snapshot())
    }

    /** Wraps a machine that already satisfies the machine invariant. */
    constructor FromMachine(m: Machine<S, A>)
      requires Inv(m)
      ensures Snapshot() == m
      ensures Invariant()
    {
      config := m.config;
      current := m.current;
    }

    /** Constructs an object, or raises the constructor's error. */
    static method Create(states: seq<S>, alphabet: seq<A>, initial: S, finals: seq<S>, table: Table<S, A>)
      returns (r: Result<StateMachine<S, A>>)
      ensures initial !in states ==> r == Err(InvalidInitialState)
      ensures initial in states && !FinalsDeclared(states, finals) ==> r == Err(InvalidFinalState)
      ensures (initial in states && FinalsDeclared(states, finals)
               && !TransitionsValid(states, alphabet, table)) ==> r == Err(InvalidTransitions)
      ensures r.Ok? <==> Valid(Config(states, alphabet, initial, finals, table))
      ensures r.Ok? ==> r.value.Snapshot() == Machine(Config(states, alphabet, initial, finals, table), initial)
      ensures r.Ok? ==> r.value.Invariant()
      ensures r.Ok? ==> fresh(r.value)
    {
      var m := Fsm.Create(states, alphabet, initial, finals, table);
      if m.Err? {
        return Err(m.error);
      }
      var obj := new StateMachine.FromMachine(m.value);
      return Ok(obj);
    }

    /** One transition; on a raised error the cursor is untouched. */
    method Transition(a: A) returns (r: Result<()>)
      requires Invariant()
      modifies this
      ensures Outcome(Snapshot(), r) == Fsm.Transition(old(Snapshot()), a)
      ensures Invariant()
    {
      TransitionPreservesInv(Snapshot(), a);
      if a !in config.alphabet {
        return Err(InvalidSymbol);
      }
      if current !in config.table {
        return Err(NoTransitionsDefined);
      }
      if a !in config.table[current] {
        return Err(NoTransitionForSymbol);
      }
      current := config.table[current][a];
      return Ok(());
    }

    /** Resets, then transitions once per symbol, returning at the first
        raised error with the cursor where that error found it. */
    method Run(w: seq<A>) returns (r: Result<S>)
      requires Invariant()
      modifies this
      ensures Outcome(Snapshot(), r) == Fsm.Run(old(Snapshot()), w)
      ensures Invariant()
    {
      RunPreservesInv(Snapshot(), w);
      current := config.initial;
      ghost var start := Snapshot();
      for i := 0 to |w|
        invariant Feed(start, w[..i]) == Outcome(Snapshot(), Ok(current))
        invariant Invariant()
      {
        var step := Transition(w[i]);
        if step.Err? {
          FeedFailsAt(start, w, i, step.error);
          return Err(step.error);
        }
        assert w[..i + 1] == w[..i] + [w[i]];
        FeedAppend(start, w[..i], [w[i]]);
      }
      assert w[..|w|] == w;
      return Ok(current);
    }

    /** Puts the cursor back on the initial state. */
    method Reset()
      requires Invariant()
      modifies this
      ensures Snapshot() == Fsm.Reset(old(Snapshot()))
      ensures Invariant()
    {
      current := config.initial;
    }

    /** Returns the cursor if it accepts, otherwise raises. */
    method GetFinalState() returns (r: Result<S>)
      ensures r == Fsm.GetFinalState(Snapshot())
    {
      if current !in config.finals {
        return Err(NotAccepting);
      }
      return Ok(current);
    }
  }

  /** A client of the class: build a machine, then run it on `w`, as the
      engine's tests do. Construction errors come first; otherwise the
      result is the functional run from the initial state. */
  method BuildAndRun<S(==), A(==)>(states: seq<S>, alphabet: seq<A>, initial: S, finals: seq<S>,
                                   table: Table<S, A>, w: seq<A>)
    returns (r: Result<S>)
    ensures initial !in states ==> r == Err(InvalidInitialState)
    ensures initial in states && !FinalsDeclared(states, finals) ==> r == Err(InvalidFinalState)
    ensures (initial in states && FinalsDeclared(states, finals)
             && !TransitionsValid(states, alphabet, table)) ==> r == Err(InvalidTransitions)
    ensures Valid(Config(states, alphabet, initial, finals, table))
            ==> r == Fsm.Run(Machine(Config(states, alphabet, initial, finals, table), initial), w).result
  {
    var built := StateMachine.Create(states, alphabet, initial, finals, table);
    if built.Err? {
      return Err(built.error);
    }
    var fsm := built.value;
    r := fsm.Run(w);
  }
}
