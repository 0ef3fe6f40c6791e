/**
 * A generic deterministic finite-state machine engine.
 *
 * A machine is an immutable configuration (declared states, input alphabet,
 * initial state, accepting states and a partial two-level transition table)
 * plus one mutable cursor, the current state. The engine validates the
 * configuration once, moves the cursor one symbol at a time, drives whole
 * inputs with reset-before-run semantics, and asserts acceptance.
 *
 * This module is purely functional: every operation that the Python `FSM`
 * class (fsm.py) performs on its mutable object takes the machine value and
 * returns the machine value after the call together with what the call
 * returned or raised.
 */
module Fsm {

  /** The failures the engine raises. The Python `FSM` class raises a single exception
      type for all of them; the variant records which check failed. */
  datatype Error =
    | InvalidInitialState
    | InvalidFinalState
    | InvalidTransitions
    | InvalidSymbol
    | NoTransitionsDefined
    | NoTransitionForSymbol
    | NotAccepting

  /** What an operation returned, or the error it raised. */
  datatype Result<+T> = Ok(value: T) | Err(error: Error)

  /** A partial transition table: source state, then symbol, to target state.
      Both levels may omit entries. */
  type Table<S, A> = map<S, map<A, S>>

  /** The configuration a machine is built from; it never changes after
      construction. The three collections are lists in the Python `FSM` class and are
      only ever queried for membership, so duplicates are harmless. */
  datatype Config<S, A> = Config(
    states: seq<S>,
    alphabet: seq<A>,
    initial: S,
    finals: seq<S>,
    table: Table<S, A>)

  /** A machine: its configuration and its cursor. */
  datatype Machine<S, A> = Machine(config: Config<S, A>, current: S)

  /** The machine after an operation, together with what the operation
      returned or raised. A raised error does not undo earlier cursor moves. */
  datatype Outcome<S, A, T> = Outcome(machine: Machine<S, A>, result: Result<T>)

  // ---------------------------------------------------------------------------
  // Configuration validity: the reference definitions
  // ---------------------------------------------------------------------------

  /** Every symbol of one table row is declared and every target is a state. */
  predicate RowValid<S(==), A(==)>(states: seq<S>, alphabet: seq<A>, row: map<A, S>)
  {
    forall a :: a in row ==> a in alphabet && row[a] in states
  }

  /** The table is non-empty and mentions only declared states and symbols.
      Non-empty means at least one source state is present, even with an
      empty row. */
  predicate TransitionsValid<S(==), A(==)>(states: seq<S>, alphabet: seq<A>, table: Table<S, A>)
  {
    && |table| != 0
    && forall s :: s in table ==> s in states && RowValid(states, alphabet, table[s])
  }

  /** Every accepting state is a declared state (an empty list qualifies). */
  predicate FinalsDeclared<S(==)>(states: seq<S>, finals: seq<S>)
  {
    forall f :: f in finals ==> f in states
  }

  /** A configuration the constructor accepts. */
  predicate Valid<S(==), A(==)>(c: Config<S, A>)
  {
    && c.initial in c.states
    && FinalsDeclared(c.states, c.finals)
    && TransitionsValid(c.states, c.alphabet, c.table)
  }

  /** The machine invariant: a valid configuration and a declared cursor. */
  predicate Inv<S(==), A(==)>(m: Machine<S, A>)
  {
    Valid(m.config) && m.current in m.config.states
  }

  /** The table read as a relation: `s` moves to `t` on `a`. */
  ghost predicate Edge<S, A>(c: Config<S, A>, s: S, a: A, t: S)
  {
    a in c.alphabet && s in c.table && a in c.table[s] && c.table[s][a] == t
  }

  /** `p` is the sequence of states visited when reading `w` from `s`:
      one state more than symbols, every consecutive pair an edge. */
  ghost predicate IsPath<S, A>(c: Config<S, A>, s: S, w: seq<A>, p: seq<S>)
  {
    && |p| == |w| + 1
    && p[0] == s
    && forall i :: 0 <= i < |w| ==> Edge(c, p[i], w[i], p[i + 1])
  }

  // ---------------------------------------------------------------------------
  // Construction
  // ---------------------------------------------------------------------------

  /** Checks the table the way `FSM._validate_transitions` (fsm.py) does: reject an empty table, then
      walk every row and every entry of it, in whatever order the map
      yields them, and stop at the first undeclared state, symbol or target. */
  method ValidateTransitions<S(==), A(==)>(states: seq<S>, alphabet: seq<A>, table: Table<S, A>)
    returns (ok: bool)
    ensures ok <==> TransitionsValid(states, alphabet, table)
  {
    if |table| == 0 {
      return false;
    }
    var pending := table.Keys;
    while pending != {}
      invariant pending <= table.Keys
      invariant forall s :: s in table && s !in pending ==>
        s in states && RowValid(states, alphabet, table[s])
      decreases pending
    {
      var s :| s in pending;
      if s !in states {
        return false;
      }
      var row := table[s];
      var symbols := row.Keys;
      while symbols != {}
        invariant symbols <= row.Keys
        invariant forall a :: a in row && a !in symbols ==> a in alphabet && row[a] in states
        decreases symbols
      {
        var a :| a in symbols;
        if a !in alphabet || row[a] !in states {
          return false;
        }
        symbols := symbols - {a};
      }
      pending := pending - {s};
    }
    return true;
  }

  /** The constructor: checks the initial state, then each accepting state in
      list order, then the table, and raises on the first failed check. A
      machine exists only if every check passed, and it starts at the
      initial state. */
  method Create<S(==), A(==)>(states: seq<S>, alphabet: seq<A>, initial: S, finals: seq<S>, table: Table<S, A>)
    returns (r: Result<Machine<S, A>>)
    ensures initial !in states ==> r == Err(InvalidInitialState)
    ensures initial in states && !FinalsDeclared(states, finals) ==> r == Err(InvalidFinalState)
    ensures (initial in states && FinalsDeclared(states, finals)
             && !TransitionsValid(states, alphabet, table)) ==> r == Err(InvalidTransitions)
    ensures r.Ok? <==> Valid(Config(states, alphabet, initial, finals, table))
    ensures r.Ok? ==> r.value == Machine(Config(states, alphabet, initial, finals, table), initial)
    ensures r.Ok? ==> Inv(r.value)
  {
    if initial !in states {
      return Err(InvalidInitialState);
    }
    for i := 0 to |finals|
      invariant forall j :: 0 <= j < i ==> finals[j] in states
    {
      if finals[i] !in states {
        return Err(InvalidFinalState);
      }
    }
    var ok := ValidateTransitions(states, alphabet, table);
    if !ok {
      return Err(InvalidTransitions);
    }
    return Ok(Machine(Config(states, alphabet, initial, finals, table), initial));
  }

  // ---------------------------------------------------------------------------
  // Single step, reset and acceptance
  // ---------------------------------------------------------------------------

  /** The successor of `s` on `a`, or the first of the three step-time checks
      that fails: unknown symbol, then a state without a row, then a row
      without the symbol. */
  function Step<S(==), A(==)>(c: Config<S, A>, s: S, a: A): (r: Result<S>)
    ensures a !in c.alphabet ==> r == Err(InvalidSymbol)
    ensures a in c.alphabet && s !in c.table ==> r == Err(NoTransitionsDefined)
    ensures a in c.alphabet && s in c.table && a !in c.table[s] ==> r == Err(NoTransitionForSymbol)
    ensures r.Ok? <==> a in c.alphabet && s in c.table && a in c.table[s]
    ensures r.Ok? ==> Edge(c, s, a, r.value)
  {
    if a !in c.alphabet then Err(InvalidSymbol)
    else if s !in c.table then Err(NoTransitionsDefined)
    else if a !in c.table[s] then Err(NoTransitionForSymbol)
    else Ok(c.table[s][a])
  }

  /** One transition of the machine: on success the cursor follows the table
      and nothing else changes; on failure the machine is left as it was. */
  function Transition<S(==), A(==)>(m: Machine<S, A>, a: A): (o: Outcome<S, A, ()>)
    ensures o.machine.config == m.config
    ensures o.result.Ok? ==> Edge(m.config, m.current, a, o.machine.current)
    ensures o.result.Err? ==> o.machine == m && Step(m.config, m.current, a) == Err(o.result.error)
  {
    match Step(m.config, m.current, a)
    case Ok(t) => Outcome(m.(current := t), Ok(()))
    case Err(e) => Outcome(m, Err(e))
  }

  /** Puts the cursor back on the initial state. */
  function Reset<S(==), A(==)>(m: Machine<S, A>): (r: Machine<S, A>)
    ensures r.config == m.config && r.current == m.config.initial
  {
    m.(current := m.config.initial)
  }

  /** The acceptance assertion: the cursor if it is an accepting state,
      otherwise a not-accepting error. It never moves the cursor. */
  function GetFinalState<S(==), A(==)>(m: Machine<S, A>): (r: Result<S>)
    ensures r.Ok? <==> m.current in m.config.finals
    ensures r.Ok? ==> r.value == m.current
    ensures r.Err? ==> r.error == NotAccepting
  {
    if m.current !in m.config.finals then Err(NotAccepting) else Ok(m.current)
  }

  // ---------------------------------------------------------------------------
  // Whole inputs
  // ---------------------------------------------------------------------------

  /** The loop of the run: transitions over `w` from the present cursor,
      stopping at the first failure with the cursor where that failure
      found it. On success it returns the cursor. */
  function Feed<S(==), A(==)>(m: Machine<S, A>, w: seq<A>): (o: Outcome<S, A, S>)
    ensures o.machine.config == m.config
    ensures o.result.Ok? ==> o.result.value == o.machine.current
    decreases |w|
  {
    if |w| == 0 then Outcome(m, Ok(m.current))
    else
      var t := Transition(m, w[0]);
      if t.result.Err? then Outcome(t.machine, Err(t.result.error))
      else Feed(t.machine, w[1..])
  }

  /** The run: reset the cursor, then feed the whole input. Its outcome does
      not depend on where the cursor was before the call. */
  function Run<S(==), A(==)>(m: Machine<S, A>, w: seq<A>): (o: Outcome<S, A, S>)
    ensures o.machine.config == m.config
    ensures o.result.Ok? ==> o.result.value == o.machine.current
    ensures |w| == 0 ==> o == Outcome(Machine(m.config, m.config.initial), Ok(m.config.initial))
  {
    Feed(Reset(m), w)
  }

  // ---------------------------------------------------------------------------
  // Properties
  // ---------------------------------------------------------------------------

  /** Feeding is a left fold: feeding `u + v` feeds `u`, and if that did not
      fail, feeds `v` from where `u` left the cursor. */
  lemma {:induction false} FeedAppend<S, A>(m: Machine<S, A>, u: seq<A>, v: seq<A>)
    ensures Feed(m, u + v) ==
      (var o := Feed(m, u); if o.result.Err? then o else Feed(o.machine, v))
    decreases |u|
  {
    if |u| == 0 {
      assert u + v == v;
    } else {
      assert (u + v)[0] == u[0];
      assert (u + v)[1..] == u[1..] + v;
      var t := Transition(m, u[0]);
      if t.result.Ok? {
        FeedAppend(t.machine, u[1..], v);
      }
    }
  }

  /** Reading `w` along a path of edges succeeds and leaves the cursor on the
      last state of the path. */
  lemma {:induction false} PathFeeds<S, A>(m: Machine<S, A>, w: seq<A>, p: seq<S>)
    requires IsPath(m.config, m.current, w, p)
    ensures Feed(m, w) == Outcome(m.(current := p[|w|]), Ok(p[|w|]))
    decreases |w|
  {
    if |w| > 0 {
      var c := m.config;
      assert Edge(c, p[0], w[0], p[1]);
      var m' := m.(current := p[1]);
      assert IsPath(c, p[1], w[1..], p[1..]) by {
        forall i | 0 <= i < |w| - 1
          ensures Edge(c, p[1..][i], w[1..][i], p[1..][i + 1])
        {
          assert Edge(c, p[i + 1], w[i + 1], p[i + 2]);
        }
      }
      PathFeeds(m', w[1..], p[1..]);
    }
  }

  /** A successful feed follows a path of edges ending at its result. */
  lemma {:induction false} FeedHasPath<S, A>(m: Machine<S, A>, w: seq<A>)
    requires Feed(m, w).result.Ok?
    ensures exists p :: IsPath(m.config, m.current, w, p) && p[|w|] == Feed(m, w).result.value
    decreases |w|
  {
    var c := m.config;
    if |w| == 0 {
      assert IsPath(c, m.current, w, [m.current]);
    } else {
      var t := Transition(m, w[0]);
      FeedHasPath(t.machine, w[1..]);
      var q :| IsPath(c, t.machine.current, w[1..], q)
        && q[|w[1..]|] == Feed(t.machine, w[1..]).result.value;
      var p := [m.current] + q;
      assert IsPath(c, m.current, w, p) by {
        forall i | 0 <= i < |w|
          ensures Edge(c, p[i], w[i], p[i + 1])
        {
          if i > 0 {
            assert Edge(c, q[i - 1], w[1..][i - 1], q[i]);
          }
        }
      }
      assert p[|w|] == q[|w[1..]|];
    }
  }

  /** A feed succeeds with final state `t` exactly when some path of edges
      reads `w` from the cursor and ends at `t`. */
  lemma {:induction false} FeedSucceedsIffPath<S, A>(m: Machine<S, A>, w: seq<A>, t: S)
    ensures Feed(m, w).result == Ok(t) <==> exists p :: IsPath(m.config, m.current, w, p) && p[|w|] == t
  {
    if Feed(m, w).result == Ok(t) {
      FeedHasPath(m, w);
    }
    if p :| IsPath(m.config, m.current, w, p) && p[|w|] == t {
      PathFeeds(m, w, p);
    }
  }

  /** A failure at symbol `i` after a successful prefix is the outcome of the
      whole feed: the error is the failing step's error and the cursor is
      the state reached after the first `i` symbols, not rolled back. */
  lemma {:induction false} FeedFailsAt<S, A>(m: Machine<S, A>, w: seq<A>, i: nat, e: Error)
    requires i < |w|
    requires Feed(m, w[..i]).result.Ok?
    requires Step(m.config, Feed(m, w[..i]).result.value, w[i]) == Err(e)
    ensures Feed(m, w) == Outcome(Feed(m, w[..i]).machine, Err(e))
  {
    var o := Feed(m, w[..i]);
    var rest := w[i..];
    assert w == w[..i] + rest;
    FeedAppend(m, w[..i], rest);
    assert o.machine == m.(current := o.result.value);
    assert Feed(o.machine, rest) == Outcome(o.machine, Err(e)) by {
      assert rest[0] == w[i];
      assert Step(o.machine.config, o.machine.current, rest[0]) == Err(e);
    }
  }

  /** A failed feed failed at some symbol `i`: the first `i` symbols were
      read successfully, the step on symbol `i` raised the feed's error, and
      the cursor is where the first `i` symbols left it. */
  lemma {:induction false} FeedFailureIndex<S, A>(m: Machine<S, A>, w: seq<A>)
    requires Feed(m, w).result.Err?
    ensures exists i ::
              && 0 <= i < |w|
              && Feed(m, w[..i]).result.Ok?
              && Step(m.config, Feed(m, w[..i]).result.value, w[i]) == Feed(m, w).result
              && Feed(m, w).machine == Feed(m, w[..i]).machine
    decreases |w|
  {
    var t := Transition(m, w[0]);
    if t.result.Err? {
      assert w[..0] == [];
      assert Feed(m, w[..0]).result.Ok?;
    } else {
      var w' := w[1..];
      FeedFailureIndex(t.machine, w');
      var j :| 0 <= j < |w'| && Feed(t.machine, w'[..j]).result.Ok?
        && Step(m.config, Feed(t.machine, w'[..j]).result.value, w'[j]) == Feed(t.machine, w').result
        && Feed(t.machine, w').machine == Feed(t.machine, w'[..j]).machine;
      var i := j + 1;
      assert w[..i][0] == w[0];
      assert w[..i][1..] == w'[..j];
      assert Feed(m, w[..i]) == Feed(t.machine, w'[..j]);
      assert w[i] == w'[j];
    }
  }

  /** What a failed run leaves behind: the cursor is not reset to the
      initial state; it is the state that the symbols read before the
      failing one reached. */
  lemma {:induction false} RunFailureCursor<S, A>(m: Machine<S, A>, w: seq<A>)
    requires Run(m, w).result.Err?
    ensures exists i ::
              && 0 <= i < |w|
              && Run(m, w[..i]).result.Ok?
              && Step(m.config, Run(m, w[..i]).result.value, w[i]) == Run(m, w).result
              && Run(m, w).machine.current == Run(m, w[..i]).result.value
  {
    FeedFailureIndex(Reset(m), w);
  }

  /** A run succeeds with final state `t` exactly when some path of edges
      reads `w` from the initial state and ends at `t`. */
  lemma RunSucceedsIffPath<S, A>(m: Machine<S, A>, w: seq<A>, t: S)
    ensures Run(m, w).result == Ok(t) <==> exists p :: IsPath(m.config, m.config.initial, w, p) && p[|w|] == t
  {
    FeedSucceedsIffPath(Reset(m), w, t);
  }

  /** The cursor stays declared: a transition from a declared state of a
      valid configuration lands on a declared state, because every target
      in the table was checked at construction. */
  lemma TransitionPreservesInv<S, A>(m: Machine<S, A>, a: A)
    requires Inv(m)
    ensures Inv(Transition(m, a).machine)
  {
    var c := m.config;
    if Step(c, m.current, a).Ok? {
      assert RowValid(c.states, c.alphabet, c.table[m.current]);
    }
  }

  /** Feeding any input, successful or not, keeps the cursor declared. */
  lemma {:induction false} FeedPreservesInv<S, A>(m: Machine<S, A>, w: seq<A>)
    requires Inv(m)
    ensures Inv(Feed(m, w).machine)
    decreases |w|
  {
    if |w| > 0 {
      TransitionPreservesInv(m, w[0]);
      var t := Transition(m, w[0]);
      if t.result.Ok? {
        FeedPreservesInv(t.machine, w[1..]);
      }
    }
  }

  /** A run on a valid configuration leaves a declared cursor, whatever the
      cursor was before the call and whether or not the run failed. */
  lemma RunPreservesInv<S, A>(m: Machine<S, A>, w: seq<A>)
    requires Valid(m.config)
    ensures Inv(Reset(m))
    ensures Inv(Run(m, w).machine)
  {
    FeedPreservesInv(Reset(m), w);
  }

  /** Reset is idempotent. */
  lemma ResetIdempotent<S, A>(m: Machine<S, A>)
    ensures Reset(Reset(m)) == Reset(m)
  {
  }

  /** Running the empty input takes no step and returns the initial state;
      accepting afterwards succeeds exactly when the initial state accepts. */
  lemma RunEmpty<S, A>(m: Machine<S, A>)
    ensures Run(m, []).result == Ok(m.config.initial)
    ensures Run(m, []).machine.current == m.config.initial
    ensures GetFinalState(Run(m, []).machine).Ok? <==> m.config.initial in m.config.finals
  {
  }

  /** Runs do not accumulate: two machines with the same configuration give
      the same outcome on the same input, wherever their cursors were. */
  lemma RunIgnoresCursor<S, A>(m1: Machine<S, A>, m2: Machine<S, A>, w: seq<A>)
    requires m1.config == m2.config
    ensures Run(m1, w) == Run(m2, w)
  {
  }
}
