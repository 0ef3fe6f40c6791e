/**
 * The remainder automaton: one fixed configuration of the engine whose
 * states "0", "1", "2" are the residues modulo 3 of the binary number read
 * so far, and a run that decodes the final state label to an integer.
 */
module ModThree {
  import opened Fsm

  /** The state labels, which are also the accepting states. */
  const States: seq<string> := ["0", "1", "2"]

  /** The input symbols: the two binary digits. */
  const Alphabet: seq<char> := ['0', '1']

  const Initial: string := "0"

  /** Reading bit b in residue s leads to residue (2 * s + b) mod 3. */
  const Table: Fsm.Table<string, char> := map[
    "0" := map['0' := "0", '1' := "1"],
    "1" := map['0' := "2", '1' := "0"],
    "2" := map['0' := "1", '1' := "2"]
  ]

  /** The fixed configuration; every state accepts. */
  const Cfg: Config<string, char> := Config(States, Alphabet, Initial, States, Table)

  // ---------------------------------------------------------------------------
  // Labels, digits and numbers
  // ---------------------------------------------------------------------------

  /** The state label of residue `r`. */
  function Label(r: int): (l: string)
    requires 0 <= r < 3
    ensures l in States
  {
    if r == 0 then "0" else if r == 1 then "1" else "2"
  }

  /** Integer parsing of a state label. */
  function Decode(l: string): (r: int)
    requires l in States
    ensures 0 <= r < 3
    ensures Label(r) == l
  {
    if l == "0" then 0 else if l == "1" then 1 else 2
  }

  /** Decoding a residue's label gives back the residue. */
  lemma DecodeLabel(r: int)
    requires 0 <= r < 3
    ensures Decode(Label(r)) == r
  {
  }

  /** A binary digit. */
  predicate IsDigit(c: char)
  {
    c == '0' || c == '1'
  }

  predicate IsBinary(w: string)
  {
    forall i :: 0 <= i < |w| ==> IsDigit(w[i])
  }

  function Bit(c: char): (b: nat)
    requires IsDigit(c)
    ensures b < 2
  {
    if c == '0' then 0 else 1
  }

  /** The number a binary string denotes, most significant digit first. */
  function Value(w: string): nat
    requires IsBinary(w)
  {
    if |w| == 0 then 0 else 2 * Value(w[..|w| - 1]) + Bit(w[|w| - 1])
  }

  /** The residue after one more digit. */
  function NextResidue(s: int, c: char): (r: int)
    requires 0 <= s < 3 && IsDigit(c)
    ensures 0 <= r < 3
  {
    (2 * s + Bit(c)) % 3
  }

  /** The residue of the prefix read so far, updated digit by digit. */
  function Residue(w: string): (r: int)
    requires IsBinary(w)
    ensures 0 <= r < 3
  {
    if |w| == 0 then 0 else NextResidue(Residue(w[..|w| - 1]), w[|w| - 1])
  }

  /** `n` copies of the digit one. */
  function Ones(n: nat): (w: string)
    ensures |w| == n && IsBinary(w)
  {
    seq(n, _ => '1')
  }

  // ---------------------------------------------------------------------------
  // Arithmetic facts about residues
  // ---------------------------------------------------------------------------

  /** Appending bit b to v gives a number whose residue follows from the
      residue of v alone. */
  lemma RemainderStep(x: nat, v: nat, b: nat)
    requires x == 2 * v + b
    ensures x % 3 == (2 * (v % 3) + b) % 3
  {
    var q := v / 3;
    assert v == 3 * q + v % 3;
    assert 2 * v + b == 3 * (2 * q) + (2 * (v % 3) + b);
  }

  /** Appending one digit: the string stays binary, its value doubles plus
      the bit, and its residue advances by the remainder rule. */
  lemma AppendDigit(u: string, c: char)
    requires IsBinary(u) && IsDigit(c)
    ensures IsBinary(u + [c])
    ensures Value(u + [c]) == 2 * Value(u) + Bit(c)
    ensures Residue(u + [c]) == NextResidue(Residue(u), c)
  {
    var w := u + [c];
    assert IsBinary(w) by {
      forall i | 0 <= i < |w|
        ensures IsDigit(w[i])
      {
        if i < |u| {
          assert w[i] == u[i];
        }
      }
    }
    assert w[..|w| - 1] == u && w[|w| - 1] == c;
  }

  /** The digit-by-digit residue is the string's value mod 3. */
  lemma {:induction false} ResidueIsValueMod3(w: string)
    requires IsBinary(w)
    ensures Residue(w) == Value(w) % 3
    decreases |w|
  {
    if |w| > 0 {
      var u := w[..|w| - 1];
      assert IsBinary(u);
      ResidueIsValueMod3(u);
      RemainderStep(Value(w), Value(u), Bit(w[|w| - 1]));
    }
  }

  /** A leading zero does not change a binary string's value. */
  lemma {:induction false} ValueLeadingZero(w: string)
    requires IsBinary(w)
    ensures IsBinary("0" + w) && Value("0" + w) == Value(w)
    decreases |w|
  {
    var z := "0" + w;
    assert IsBinary(z) by {
      forall i | 0 <= i < |z|
        ensures IsDigit(z[i])
      {
        if i > 0 {
          assert z[i] == w[i - 1];
        }
      }
    }
    if |w| == 0 {
      assert z[..0] == [];
    } else {
      var u := w[..|w| - 1];
      assert IsBinary(u);
      ValueLeadingZero(u);
      assert z[..|z| - 1] == "0" + u;
    }
  }

  /** A run of n ones denotes 2^n - 1, which is 0 mod 3 for even n and 1
      mod 3 for odd n. */
  lemma {:induction false} OnesRemainder(n: nat)
    ensures Value(Ones(n)) % 3 == (if n % 2 == 0 then 0 else 1)
  {
    if n > 0 {
      OnesRemainder(n - 1);
      assert Ones(n)[..n - 1] == Ones(n - 1);
      assert Value(Ones(n)) == 2 * Value(Ones(n - 1)) + 1;
      RemainderStep(Value(Ones(n)), Value(Ones(n - 1)), 1);
    }
  }

  /** The residues of the strings that the examples below use. */
  lemma ExampleResidues()
    ensures IsBinary("110") && IsBinary("1") && IsBinary("10")
    ensures IsBinary("1101") && IsBinary("1001") && IsBinary("111") && IsBinary("1010")
    ensures Value("110") % 3 == 0 && Value("1") % 3 == 1 && Value("10") % 3 == 2
    ensures Value("1101") % 3 == 1 && Value("1001") % 3 == 0
    ensures Value("111") % 3 == 1 && Value("1010") % 3 == 1
  {
    assert "1"[..0] == "" && "10"[..1] == "1" && "11"[..1] == "1" && "110"[..2] == "11";
    assert "100"[..2] == "10" && "1001"[..3] == "100";
    assert "1101"[..3] == "110" && "111"[..2] == "11" && "101"[..2] == "10" && "1010"[..3] == "101";
  }

  // ---------------------------------------------------------------------------
  // The configuration
  // ---------------------------------------------------------------------------

  /** The fixed configuration passes every constructor check. */
  lemma ConfigValid()
    ensures Valid(Cfg)
  {
    assert FinalsDeclared(States, States);
    forall s | s in Table
      ensures s in States && RowValid(States, Alphabet, Table[s])
    {
      assert s == "0" || s == "1" || s == "2";
      assert RowValid(States, Alphabet, Table[s]);
    }
    assert "0" in Table;
  }

  /** The table is total over residues and digits, and each entry is the
      remainder rule. */
  lemma StepIsRemainderRule(s: int, c: char)
    requires 0 <= s < 3 && IsDigit(c)
    ensures Step(Cfg, Label(s), c) == Ok(Label(NextResidue(s, c)))
  {
    var row := Table[Label(s)];
    if s == 0 {
      assert row == map['0' := "0", '1' := "1"];
    } else if s == 1 {
      assert row == map['0' := "2", '1' := "0"];
    } else {
      assert row == map['0' := "1", '1' := "2"];
    }
    assert c in row;
    assert row[c] == Label(NextResidue(s, c));
  }

  /** The remainder automaton's constructor never raises. */
  method New() returns (r: Result<Machine<string, char>>)
    ensures r == Ok(Machine(Cfg, Initial))
  {
    ConfigValid();
    r := Fsm.Create(States, Alphabet, Initial, States, Table);
  }

  // ---------------------------------------------------------------------------
  // The run
  // ---------------------------------------------------------------------------

  /** Resets, runs the engine (which resets again), asserts acceptance and
      decodes the final label. The result, when there is one, is a residue
      and the cursor is on its label. */
  function RunModThree(m: Machine<string, char>, w: string): (o: Outcome<string, char, int>)
    requires m.config == Cfg
    ensures o.machine.config == Cfg
    ensures o.result.Ok? ==> 0 <= o.result.value < 3 && o.machine.current == Label(o.result.value)
  {
    var r := Run(Reset(m), w);
    if r.result.Err? then Outcome(r.machine, Err(r.result.error))
    else
      match GetFinalState(r.machine)
      case Err(e) => Outcome(r.machine, Err(e))
      case Ok(final) => Outcome(r.machine, Ok(Decode(final)))
  }

  /** Feeding one digit from residue `s` moves to the next residue. */
  lemma FeedOneDigit(s: int, c: char)
    requires 0 <= s < 3 && IsDigit(c)
    ensures Feed(Machine(Cfg, Label(s)), [c])
         == Outcome(Machine(Cfg, Label(NextResidue(s, c))), Ok(Label(NextResidue(s, c))))
  {
    StepIsRemainderRule(s, c);
    assert [c][1..] == [];
  }

  /** Feeding a binary string from the initial state succeeds and stops on
      the label of its residue. */
  lemma {:induction false} FeedComputesResidue(w: string)
    requires IsBinary(w)
    ensures Feed(Machine(Cfg, Initial), w)
         == Outcome(Machine(Cfg, Label(Residue(w))), Ok(Label(Residue(w))))
    decreases |w|
  {
    if |w| > 0 {
      var u, c := w[..|w| - 1], w[|w| - 1];
      assert IsBinary(u);
      assert u + [c] == w;
      AppendDigit(u, c);
      var s := Residue(u);
      FeedComputesResidue(u);
      FeedAppend(Machine(Cfg, Initial), u, [c]);
      FeedOneDigit(s, c);
    }
  }

  /** A string with a symbol other than a binary digit makes the engine
      raise the invalid-symbol error: every earlier step succeeds because
      the table is total over the declared states. */
  lemma {:induction false} FeedRejectsNonBinary(m: Machine<string, char>, w: string)
    requires m.config == Cfg && m.current in States
    requires !IsBinary(w)
    ensures Feed(m, w).result == Err(InvalidSymbol)
    decreases |w|
  {
    if IsDigit(w[0]) {
      StepIsRemainderRule(Decode(m.current), w[0]);
      var t := Transition(m, w[0]);
      assert !IsBinary(w[1..]) by {
        var i :| 0 <= i < |w| && !IsDigit(w[i]);
        assert w[1..][i - 1] == w[i];
      }
      FeedRejectsNonBinary(t.machine, w[1..]);
    }
  }

  /** The end-to-end property: on a binary string the run returns the
      string's value mod 3 and leaves the cursor on that residue; on any
      other string it raises the engine's invalid-symbol error. The
      acceptance check never raises. */
  lemma RunModThreeCorrect(m: Machine<string, char>, w: string)
    requires m.config == Cfg
    ensures IsBinary(w) ==>
      RunModThree(m, w) == Outcome(Machine(Cfg, Label(Value(w) % 3)), Ok(Value(w) % 3))
    ensures !IsBinary(w) ==> RunModThree(m, w).result == Err(InvalidSymbol)
  {
    assert Reset(Reset(m)) == Machine(Cfg, Initial);
    if IsBinary(w) {
      ResidueIsValueMod3(w);
      FeedComputesResidue(w);
      DecodeLabel(Residue(w));
    } else {
      FeedRejectsNonBinary(Machine(Cfg, Initial), w);
    }
  }

  /** A leading zero changes nothing: from the initial state "0" the digit
      '0' leads back to "0", so the run on "0" + w ends exactly as the run on
      w, whether it succeeds or fails. */
  lemma RunModThreeLeadingZero(m: Machine<string, char>, w: string)
    requires m.config == Cfg
    ensures RunModThree(m, "0" + w) == RunModThree(m, w)
  {
    assert ("0" + w)[1..] == w;
  }


  /** Runs on one instance are independent: "110", then "1", then "10"
      give 0, 1 and 2. */
  lemma ConsecutiveRuns(m: Machine<string, char>)
    requires m.config == Cfg
    ensures
      var o1 := RunModThree(m, "110");
      var o2 := RunModThree(o1.machine, "1");
      var o3 := RunModThree(o2.machine, "10");
      && o1.result == Ok(0)
      && o2.result == Ok(1)
      && o3.result == Ok(2)
  {
    ExampleResidues();
    var o1 := RunModThree(m, "110");
    RunBinary(m, "110", 0);
    var o2 := RunModThree(o1.machine, "1");
    RunBinary(o1.machine, "1", 1);
    RunBinary(o2.machine, "10", 2);
  }

  /** The run on a binary string whose value has residue `r` returns `r`. */
  lemma RunBinary(m: Machine<string, char>, w: string, r: int)
    requires m.config == Cfg && IsBinary(w) && Value(w) % 3 == r
    ensures RunModThree(m, w).result == Ok(r)
  {
    RunModThreeCorrect(m, w);
  }

  /** A string of n ones yields 0 for even n and 1 for odd n. */
  lemma RunModThreeOnes(m: Machine<string, char>, n: nat)
    requires m.config == Cfg
    ensures RunModThree(m, Ones(n)).result == Ok(if n % 2 == 0 then 0 else 1)
  {
    OnesRemainder(n);
    RunModThreeCorrect(m, Ones(n));
  }

  /** A hundred ones give 0. */
  lemma HundredOnes(m: Machine<string, char>)
    requires m.config == Cfg
    ensures RunModThree(m, Ones(100)).result == Ok(0)
  {
    var n := 100;
    assert n % 2 == 0;
    RunModThreeOnes(m, n);
  }

  /** Known values: "" gives 0, "1101" gives 1, "1001" gives 0, "111" gives 1,
      "1010" gives 1, and "10a01" raises the invalid-symbol error. */
  lemma KnownRuns(m: Machine<string, char>)
    requires m.config == Cfg
    ensures RunModThree(m, "").result == Ok(0)
    ensures RunModThree(m, "1101").result == Ok(1)
    ensures RunModThree(m, "1001").result == Ok(0)
    ensures RunModThree(m, "111").result == Ok(1)
    ensures RunModThree(m, "1010").result == Ok(1)
  {
    ExampleResidues();
    RunModThreeCorrect(m, "");
    RunBinary(m, "1101", 1);
    RunBinary(m, "1001", 0);
    RunBinary(m, "111", 1);
    RunBinary(m, "1010", 1);
  }

  /** A letter inside the input makes the run raise the invalid-symbol error. */
  lemma KnownRejection(m: Machine<string, char>)
    requires m.config == Cfg
    ensures RunModThree(m, "10a01").result == Err(InvalidSymbol)
  {
    assert !IsDigit("10a01"[2]);
    RunModThreeCorrect(m, "10a01");
  }
}
