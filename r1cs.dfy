/**
  The rank-1 constraint system the Poseidon gadget is synthesised into:
  variables, linear combinations as lists of (variable, coefficient) pairs,
  multiplication gates, and `simplify`, which merges the terms of a linear
  combination that share a variable.
 */
module R1cs {
  import opened Field

  /** A constraint-system variable: a committed input, one of the three wires of a multiplication gate, or the constant one. */
  datatype Variable =
    | Committed(i: nat)
    | MultiplierLeft(i: nat)
    | MultiplierRight(i: nat)
    | MultiplierOutput(i: nat)
    | One

  function Kind(v: Variable): nat
  {
    match v
    case Committed(_) => 0
    case MultiplierLeft(_) => 1
    case MultiplierRight(_) => 2
    case MultiplierOutput(_) => 3
    case One => 4
  }

  function Index(v: Variable): nat
  {
    if v.One? then 0 else v.i
  }

  /** The order of variables as a sorted map keeps them: by kind, in declaration order, then by index. */
  predicate Less(v: Variable, w: Variable)
  {
    Kind(v) < Kind(w) || (Kind(v) == Kind(w) && Index(v) < Index(w))
  }

  lemma LessTotal(v: Variable, w: Variable)
    ensures v == w || Less(v, w) || Less(w, v)
  {
  }

  datatype Term = Term(variable: Variable, coeff: Scalar)

  type LinearCombination = seq<Term>

  /** The linear combination `1 * v`, which is what converting a variable into a linear combination produces. */
  function FromVariable(v: Variable): LinearCombination
  {
    [Term(v, 1)]
  }

  /** The variables that occur in a linear combination. */
  function Vars(lc: LinearCombination): set<Variable>
  {
    set k | 0 <= k < |lc| :: lc[k].variable
  }

  /** Variables strictly ascending: each occurs at most once, in order. */
  predicate Sorted(lc: LinearCombination)
  {
    forall j, k :: 0 <= j < k < |lc| ==> Less(lc[j].variable, lc[k].variable)
  }

  /** The value of a linear combination under an assignment of scalars to variables. */
  function Eval(lc: LinearCombination, a: Variable -> Scalar): Scalar
  {
    if |lc| == 0 then 0 else Add(Mul(lc[0].coeff, a(lc[0].variable)), Eval(lc[1..], a))
  }

  function EvalAll(lcs: seq<LinearCombination>, a: Variable -> Scalar): (r: seq<Scalar>)
    ensures |r| == |lcs|
  {
    seq(|lcs|, k requires 0 <= k < |lcs| => Eval(lcs[k], a))
  }

  /** The total coefficient of `v` in `lc`: its coefficients added up from left to right, starting from zero. */
  function Coeff(lc: LinearCombination, v: Variable): Scalar
  {
    if |lc| == 0 then 0
    else Add(Coeff(lc[..|lc| - 1], v), if lc[|lc| - 1].variable == v then lc[|lc| - 1].coeff else 0)
  }

  /** The coefficient stored for `v` in a list of entries, zero when `v` has no entry. */
  function Lookup(entries: LinearCombination, v: Variable): Scalar
  {
    if |entries| == 0 then 0
    else if entries[0].variable == v then entries[0].coeff
    else Lookup(entries[1..], v)
  }

  /** Every coefficient of a linear combination multiplied by `k`. */
  function Scale(lc: LinearCombination, k: Scalar): (r: LinearCombination)
    ensures |r| == |lc|
  {
    seq(|lc|, j requires 0 <= j < |lc| => Term(lc[j].variable, Mul(lc[j].coeff, k)))
  }

  // ---------------------------------------------------------------------------
  // Evaluation laws

  lemma {:induction false} EvalAppend(lc: LinearCombination, t: Term, a: Variable -> Scalar)
    ensures Eval(lc + [t], a) == Add(Eval(lc, a), Mul(t.coeff, a(t.variable)))
  {
    if |lc| == 0 {
      assert Eval([t], a) == Add(Mul(t.coeff, a(t.variable)), 0);
      AddZero(Mul(t.coeff, a(t.variable)));
    } else {
      assert (lc + [t])[1..] == lc[1..] + [t];
      EvalAppend(lc[1..], t, a);
      AddAssoc(Mul(lc[0].coeff, a(lc[0].variable)), Eval(lc[1..], a), Mul(t.coeff, a(t.variable)));
    }
  }

  /** Concatenating linear combinations adds their values. */
  lemma {:induction false} EvalConcat(x: LinearCombination, y: LinearCombination, a: Variable -> Scalar)
    ensures Eval(x + y, a) == Add(Eval(x, a), Eval(y, a))
  {
    if |x| == 0 {
      assert x + y == y;
      AddZero(Eval(y, a));
    } else {
      assert (x + y)[1..] == x[1..] + y;
      EvalConcat(x[1..], y, a);
      AddAssoc(Mul(x[0].coeff, a(x[0].variable)), Eval(x[1..], a), Eval(y, a));
    }
  }

  /** Scaling the coefficients scales the value. */
  lemma {:induction false} EvalScale(lc: LinearCombination, k: Scalar, a: Variable -> Scalar)
    ensures Eval(Scale(lc, k), a) == Mul(Eval(lc, a), k)
  {
    if |lc| == 0 {
    } else {
      var c, x := lc[0].coeff, a(lc[0].variable);
      assert Scale(lc, k)[1..] == Scale(lc[1..], k);
      EvalScale(lc[1..], k, a);
      calc {
        Eval(Scale(lc, k), a);
        Add(Mul(Mul(c, k), x), Mul(Eval(lc[1..], a), k));
        { MulAssoc(c, k, x); MulComm(k, x); MulAssoc(c, x, k); }
        Add(Mul(Mul(c, x), k), Mul(Eval(lc[1..], a), k));
        { AddMulDistrib(Mul(c, x), Eval(lc[1..], a), k); }
        Mul(Eval(lc, a), k);
      }
    }
  }

  lemma EvalFromVariable(v: Variable, a: Variable -> Scalar)
    ensures Eval(FromVariable(v), a) == a(v)
  {
    assert FromVariable(v)[1..] == [];
    MulOne(a(v));
    AddZero(a(v));
  }

  // ---------------------------------------------------------------------------
  // simplify: merging the terms that share a variable

  lemma {:induction false} LookupAbsent(entries: LinearCombination, v: Variable)
    requires v !in Vars(entries)
    ensures Lookup(entries, v) == 0
  {
    if |entries| > 0 {
      assert entries[0].variable in Vars(entries);
      assert Vars(entries[1..]) <= Vars(entries) by {
        forall w | w in Vars(entries[1..]) ensures w in Vars(entries) {
          var k :| 0 <= k < |entries[1..]| && entries[1..][k].variable == w;
          assert entries[k + 1].variable == w;
        }
      }
      LookupAbsent(entries[1..], v);
    }
  }

  lemma VarsCons(t: Term, rest: LinearCombination)
    ensures Vars([t] + rest) == {t.variable} + Vars(rest)
  {
    var s := [t] + rest;
    forall w | w in Vars(s) ensures w in {t.variable} + Vars(rest) {
      var k :| 0 <= k < |s| && s[k].variable == w;
      if k > 0 {
        assert rest[k - 1].variable == w;
      }
    }
    forall w | w in Vars(rest) ensures w in Vars(s) {
      var k :| 0 <= k < |rest| && rest[k].variable == w;
      assert s[k + 1].variable == w;
    }
    assert s[0].variable == t.variable;
  }

  /** In a sorted list every later variable is above the first one. */
  lemma SortedHeadBelow(entries: LinearCombination)
    requires Sorted(entries) && |entries| > 0
    ensures forall w :: w in Vars(entries[1..]) ==> Less(entries[0].variable, w)
  {
    forall w | w in Vars(entries[1..]) ensures Less(entries[0].variable, w) {
      var j :| 0 <= j < |entries[1..]| && entries[1..][j].variable == w;
      assert entries[j + 1].variable == w;
    }
  }

  /** A variable below the first of a sorted list does not occur in it. */
  lemma BelowHeadAbsent(entries: LinearCombination, v: Variable)
    requires Sorted(entries) && |entries| > 0 && Less(v, entries[0].variable)
    ensures v !in Vars(entries)
  {
    forall k | 0 <= k < |entries| ensures entries[k].variable != v {
      if k > 0 {
        assert Less(entries[0].variable, entries[k].variable);
      }
    }
  }

  /** Putting a term in front of a sorted list keeps it sorted when its variable is below all of the list's. */
  lemma SortedCons(t: Term, rest: LinearCombination)
    requires Sorted(rest)
    requires forall w :: w in Vars(rest) ==> Less(t.variable, w)
    ensures Sorted([t] + rest)
  {
    var s := [t] + rest;
    forall j, k | 0 <= j < k < |s| ensures Less(s[j].variable, s[k].variable) {
      assert s[k].variable == rest[k - 1].variable;
      if j == 0 {
        assert rest[k - 1].variable in Vars(rest);
      } else {
        assert s[j].variable == rest[j - 1].variable;
      }
    }
  }

  /**
    `*entry(v).or_insert(0) += c` on a sorted map, the map kept as its ascending
    list of entries: add `c` to the entry for `v`, creating it (at its place in
    the order) when there is none.
   */
  function Accumulate(entries: LinearCombination, v: Variable, c: Scalar): LinearCombination
    decreases |entries|
  {
    if |entries| == 0 then [Term(v, Add(0, c))]
    else if entries[0].variable == v then [Term(v, Add(entries[0].coeff, c))] + entries[1..]
    else if Less(v, entries[0].variable) then [Term(v, Add(0, c))] + entries
    else [entries[0]] + Accumulate(entries[1..], v, c)
  }

  /** `r` is sorted, has the variables of `entries` and `v`, and the coefficients of `entries` with `c` added to that of `v`. */
  ghost predicate AccumulatesTo(entries: LinearCombination, v: Variable, c: Scalar, r: LinearCombination)
  {
    && Sorted(r)
    && Vars(r) == Vars(entries) + {v}
    && forall w :: Lookup(r, w) == if w == v then Add(Lookup(entries, w), c) else Lookup(entries, w)
  }

  lemma AccumulateHit(entries: LinearCombination, v: Variable, c: Scalar)
    requires Sorted(entries) && |entries| > 0 && entries[0].variable == v
    ensures AccumulatesTo(entries, v, c, Accumulate(entries, v, c))
  {
    VarsCons(Term(v, Add(entries[0].coeff, c)), entries[1..]);
    VarsCons(entries[0], entries[1..]);
    assert entries == [entries[0]] + entries[1..];
    SortedHeadBelow(entries);
    SortedCons(Term(v, Add(entries[0].coeff, c)), entries[1..]);
  }

  lemma AccumulateBefore(entries: LinearCombination, v: Variable, c: Scalar)
    requires Sorted(entries) && |entries| > 0 && Less(v, entries[0].variable)
    ensures AccumulatesTo(entries, v, c, Accumulate(entries, v, c))
  {
    VarsCons(Term(v, Add(0, c)), entries);
    VarsCons(entries[0], entries[1..]);
    assert entries == [entries[0]] + entries[1..];
    SortedHeadBelow(entries);
    BelowHeadAbsent(entries, v);
    LookupAbsent(entries, v);
    SortedCons(Term(v, Add(0, c)), entries);
  }

  lemma AccumulateAfter(entries: LinearCombination, v: Variable, c: Scalar)
    requires Sorted(entries) && |entries| > 0 && entries[0].variable != v && !Less(v, entries[0].variable)
    requires AccumulatesTo(entries[1..], v, c, Accumulate(entries[1..], v, c))
    ensures AccumulatesTo(entries, v, c, Accumulate(entries, v, c))
  {
    LessTotal(v, entries[0].variable);
    var rest := Accumulate(entries[1..], v, c);
    VarsCons(entries[0], rest);
    VarsCons(entries[0], entries[1..]);
    assert entries == [entries[0]] + entries[1..];
    SortedHeadBelow(entries);
    SortedCons(entries[0], rest);
  }

  /** Accumulating into a sorted list keeps it sorted, adds `v` to its variables, and adds `c` to the coefficient of `v` only. */
  lemma {:induction false} AccumulateCorrect(entries: LinearCombination, v: Variable, c: Scalar)
    requires Sorted(entries)
    ensures Sorted(Accumulate(entries, v, c))
    ensures Vars(Accumulate(entries, v, c)) == Vars(entries) + {v}
    ensures forall w :: Lookup(Accumulate(entries, v, c), w) == if w == v then Add(Lookup(entries, w), c) else Lookup(entries, w)
    decreases |entries|
  {
    if |entries| == 0 {
      VarsCons(Term(v, Add(0, c)), []);
    } else if entries[0].variable == v {
      AccumulateHit(entries, v, c);
    } else if Less(v, entries[0].variable) {
      AccumulateBefore(entries, v, c);
    } else {
      AccumulateCorrect(entries[1..], v, c);
      AccumulateAfter(entries, v, c);
    }
  }

  lemma {:induction false} EvalAccumulate(entries: LinearCombination, v: Variable, c: Scalar, a: Variable -> Scalar)
    requires Sorted(entries)
    ensures Eval(Accumulate(entries, v, c), a) == Add(Eval(entries, a), Mul(c, a(v)))
    decreases |entries|
  {
    var m := Mul(c, a(v));
    AddZero(c);
    if |entries| == 0 {
      assert Accumulate(entries, v, c) == [Term(v, c)];
      assert Eval([Term(v, c)], a) == Add(m, 0);
      AddZero(m);
    } else {
      var e := entries[0];
      var x := Mul(e.coeff, a(e.variable));
      var restValue := Eval(entries[1..], a);
      if e.variable == v {
        var r := Accumulate(entries, v, c);
        assert r[1..] == entries[1..];
        calc {
          Eval(r, a);
          Add(Mul(Add(e.coeff, c), a(v)), restValue);
          { AddMulDistrib(e.coeff, c, a(v)); }
          Add(Add(x, m), restValue);
          { AddAssoc(x, m, restValue); AddComm(m, restValue); AddAssoc(x, restValue, m); }
          Add(Add(x, restValue), m);
        }
      } else if Less(v, e.variable) {
        var r := Accumulate(entries, v, c);
        assert r[1..] == entries;
        AddComm(m, Eval(entries, a));
      } else {
        var r := Accumulate(entries, v, c);
        var rest := Accumulate(entries[1..], v, c);
        assert r[1..] == rest;
        EvalAccumulate(entries[1..], v, c, a);
        AddAssoc(x, restValue, m);
      }
    }
  }

  /** The entries `simplify` accumulates: the terms of `lc` folded into an initially empty sorted map. */
  function Simplified(lc: LinearCombination): LinearCombination
  {
    if |lc| == 0 then []
    else Accumulate(Simplified(lc[..|lc| - 1]), lc[|lc| - 1].variable, lc[|lc| - 1].coeff)
  }

  /**
    What `simplify` promises: each variable of the input occurs exactly once,
    in ascending order, carrying the sum of its coefficients, so the value of
    the linear combination is unchanged under every assignment.
   */
  lemma {:induction false} SimplifiedCorrect(lc: LinearCombination)
    ensures Sorted(Simplified(lc))
    ensures Vars(Simplified(lc)) == Vars(lc)
    ensures forall v :: Lookup(Simplified(lc), v) == Coeff(lc, v)
    ensures forall a :: Eval(Simplified(lc), a) == Eval(lc, a)
  {
    if |lc| > 0 {
      var init, t := lc[..|lc| - 1], lc[|lc| - 1];
      assert lc == init + [t];
      SimplifiedCorrect(init);
      AccumulateCorrect(Simplified(init), t.variable, t.coeff);
      VarsSnoc(init, t);
      forall v ensures Lookup(Simplified(lc), v) == Coeff(lc, v) {
        if v != t.variable {
          AddZero(Coeff(init, v));
        }
      }
      forall a ensures Eval(Simplified(lc), a) == Eval(lc, a) {
        EvalAccumulate(Simplified(init), t.variable, t.coeff, a);
        EvalAppend(init, t, a);
      }
    }
  }

  lemma VarsSnoc(lc: LinearCombination, t: Term)
    ensures Vars(lc + [t]) == Vars(lc) + {t.variable}
  {
    var s := lc + [t];
    forall w | w in Vars(s) ensures w in Vars(lc) + {t.variable} {
      var k :| 0 <= k < |s| && s[k].variable == w;
      if k < |lc| {
        assert lc[k].variable == w;
      }
    }
    forall w | w in Vars(lc) ensures w in Vars(s) {
      var k :| 0 <= k < |lc| && lc[k].variable == w;
      assert s[k].variable == w;
    }
    assert s[|lc|].variable == t.variable;
  }

  /**
    `simplify`: accumulate every term into a map ordered by variable, then
    read the map back in ascending order.
   */
  method Simplify(lc: LinearCombination) returns (r: LinearCombination)
    ensures r == Simplified(lc)
    ensures Sorted(r)
    ensures Vars(r) == Vars(lc)
    ensures forall v :: Lookup(r, v) == Coeff(lc, v)
    ensures forall a :: Eval(r, a) == Eval(lc, a)
  {
    var vars: LinearCombination := [];
    var i := 0;
    while i < |lc|
      invariant 0 <= i <= |lc|
      invariant vars == Simplified(lc[..i])
    {
      assert lc[..i + 1][..i] == lc[..i];
      vars := Accumulate(vars, lc[i].variable, lc[i].coeff);
      i := i + 1;
    }
    assert lc[..i] == lc;
    r := [];
    var k := 0;
    while k < |vars|
      invariant 0 <= k <= |vars|
      invariant r == vars[..k]
    {
      r := r + [vars[k]];
      k := k + 1;
    }
    assert r == vars;
    SimplifiedCorrect(lc);
  }

  // ---------------------------------------------------------------------------
  // Multiplication gates

  /** A multiplication gate: its left and right wires are bound to these linear combinations. */
  datatype Gate = Gate(left: LinearCombination, right: LinearCombination)

  /**
    Gate `k` holds under `a`: its left and right wires carry the values of the
    linear combinations they are bound to, and its output wire their product.
   */
  ghost predicate GateHolds(gates: seq<Gate>, k: nat, a: Variable -> Scalar)
    requires k < |gates|
  {
    && a(MultiplierLeft(k)) == Eval(gates[k].left, a)
    && a(MultiplierRight(k)) == Eval(gates[k].right, a)
    && a(MultiplierOutput(k)) == Mul(a(MultiplierLeft(k)), a(MultiplierRight(k)))
  }

  ghost predicate Satisfies(gates: seq<Gate>, a: Variable -> Scalar)
  {
    forall k {:trigger GateHolds(gates, k, a)} :: 0 <= k < |gates| ==> GateHolds(gates, k, a)
  }

  /** An assignment that satisfies a list of gates satisfies every prefix of it. */
  lemma SatisfiesPrefix(gates: seq<Gate>, more: seq<Gate>, a: Variable -> Scalar)
    requires gates <= more
    requires Satisfies(more, a)
    ensures Satisfies(gates, a)
  {
    forall k | 0 <= k < |gates| ensures GateHolds(gates, k, a) {
      assert gates[k] == more[k];
      assert GateHolds(more, k, a);
    }
  }

  /** `a` gives every committed variable the value the prover committed to it. */
  ghost predicate Opens(committed: seq<Scalar>, a: Variable -> Scalar)
  {
    forall k :: 0 <= k < |committed| ==> a(Committed(k)) == committed[k]
  }

  // ---------------------------------------------------------------------------
  // The prover's witness

  /** `v` is known before gate `n` is allocated: a committed variable, the constant one, or a wire of an earlier gate. */
  predicate WireBelow(v: Variable, n: nat)
  {
    v.Committed? || v.One? || v.i < n
  }

  predicate LcBelow(lc: LinearCombination, n: nat)
  {
    forall t :: 0 <= t < |lc| ==> WireBelow(lc[t].variable, n)
  }

  predicate AllBelow(lcs: seq<LinearCombination>, n: nat)
  {
    forall i :: 0 <= i < |lcs| ==> LcBelow(lcs[i], n)
  }

  /** Gate `j` of `gates`, allocated as gate `n + j`, binds its inputs only to what is known before it. */
  predicate CausalFrom(gates: seq<Gate>, n: nat)
  {
    forall j :: 0 <= j < |gates| ==> LcBelow(gates[j].left, n + j) && LcBelow(gates[j].right, n + j)
  }

  lemma LcBelowMono(lc: LinearCombination, n: nat, m: nat)
    requires LcBelow(lc, n) && n <= m
    ensures LcBelow(lc, m)
  {
  }

  lemma CausalConcat(xs: seq<Gate>, ys: seq<Gate>, n: nat)
    requires CausalFrom(xs, n) && CausalFrom(ys, n + |xs|)
    ensures CausalFrom(xs + ys, n)
  {
    forall j | 0 <= j < |xs + ys| ensures LcBelow((xs + ys)[j].left, n + j) && LcBelow((xs + ys)[j].right, n + j) {
      if j >= |xs| {
        assert (xs + ys)[j] == ys[j - |xs|];
      }
    }
  }

  lemma {:induction false} EvalAgree(lc: LinearCombination, a: Variable -> Scalar, b: Variable -> Scalar)
    requires forall t :: 0 <= t < |lc| ==> a(lc[t].variable) == b(lc[t].variable)
    ensures Eval(lc, a) == Eval(lc, b)
  {
    if |lc| > 0 {
      assert forall t :: 0 <= t < |lc[1..]| ==> lc[1..][t] == lc[t + 1];
      EvalAgree(lc[1..], a, b);
    }
  }

  /** A linear combination known before gate `n` has the same value under assignments that agree on what is known before `n`. */
  lemma EvalBelow(lc: LinearCombination, n: nat, a: Variable -> Scalar, b: Variable -> Scalar)
    requires LcBelow(lc, n)
    requires forall v :: WireBelow(v, n) ==> a(v) == b(v)
    ensures Eval(lc, a) == Eval(lc, b)
  {
    EvalAgree(lc, a, b);
  }

  /** `w` with the three wires of gate `j` set to the values gate `g` gives them under `w`. */
  function Fill(g: Gate, j: nat, w: Variable -> Scalar): Variable -> Scalar
  {
    var l, r := Eval(g.left, w), Eval(g.right, w);
    v =>
      if v == MultiplierLeft(j) then l
      else if v == MultiplierRight(j) then r
      else if v == MultiplierOutput(j) then Mul(l, r)
      else w(v)
  }

  /**
    The prover's assignment: `a`, with the wires of gates `from` up to `k - 1`
    filled in one gate at a time, each from the values of the ones before.
   */
  function Witness(gates: seq<Gate>, a: Variable -> Scalar, from: nat, k: nat): Variable -> Scalar
    requires k <= |gates|
    decreases k
  {
    if k <= from then a else Fill(gates[k - 1], k - 1, Witness(gates, a, from, k - 1))
  }

  lemma FillKeeps(g: Gate, j: nat, w: Variable -> Scalar)
    ensures forall v :: WireBelow(v, j) ==> Fill(g, j, w)(v) == w(v)
  {
  }

  /** A gate that is satisfied stays so when nothing known before gate `m > k` changes. */
  lemma GateHoldsStable(gates: seq<Gate>, k: nat, m: nat, w: Variable -> Scalar, w': Variable -> Scalar)
    requires k < m && k < |gates|
    requires LcBelow(gates[k].left, k) && LcBelow(gates[k].right, k)
    requires forall v :: WireBelow(v, m) ==> w(v) == w'(v)
    requires GateHolds(gates, k, w)
    ensures GateHolds(gates, k, w')
  {
    assert WireBelow(MultiplierLeft(k), m) && WireBelow(MultiplierRight(k), m) && WireBelow(MultiplierOutput(k), m);
    EvalBelow(gates[k].left, k, w, w');
    EvalBelow(gates[k].right, k, w, w');
  }

  lemma {:induction false} WitnessHolds(gates: seq<Gate>, a: Variable -> Scalar, from: nat, k: nat)
    requires from <= k <= |gates|
    requires CausalFrom(gates, 0)
    ensures forall v :: WireBelow(v, from) ==> Witness(gates, a, from, k)(v) == a(v)
    ensures forall j :: from <= j < k ==> GateHolds(gates, j, Witness(gates, a, from, k))
  {
    if k > from {
      WitnessHolds(gates, a, from, k - 1);
      var w, g := Witness(gates, a, from, k - 1), gates[k - 1];
      var w' := Fill(g, k - 1, w);
      assert w' == Witness(gates, a, from, k);
      FillKeeps(g, k - 1, w);
      forall v | WireBelow(v, from) ensures w'(v) == a(v) {
        assert WireBelow(v, k - 1);
      }
      forall j | from <= j < k ensures GateHolds(gates, j, w') {
        if j < k - 1 {
          GateHoldsStable(gates, j, k - 1, w, w');
        } else {
          EvalBelow(g.left, k - 1, w, w');
          EvalBelow(g.right, k - 1, w, w');
        }
      }
    }
  }

  /**
    Completeness of synthesis: when every gate binds its inputs only to what is
    known before it and `a` satisfies the first `from` gates, the prover's
    witness satisfies every gate and leaves everything known before gate
    `from` (in particular every committed value) as `a` has it.
   */
  lemma WitnessSatisfies(gates: seq<Gate>, a: Variable -> Scalar, from: nat)
    requires from <= |gates| && CausalFrom(gates, 0)
    requires Satisfies(gates[..from], a)
    ensures Satisfies(gates, Witness(gates, a, from, |gates|))
    ensures forall v :: WireBelow(v, from) ==> Witness(gates, a, from, |gates|)(v) == a(v)
  {
    var w := Witness(gates, a, from, |gates|);
    WitnessHolds(gates, a, from, |gates|);
    forall j | 0 <= j < from ensures GateHolds(gates, j, w) {
      assert gates[..from][j] == gates[j];
      assert GateHolds(gates[..from], j, a);
      GateHoldsStable(gates, j, from, a, w);
    }
  }

  /**
    The prover's constraint system: the values committed so far (variable
    `Committed(k)` stands for `committed[k]`) and the multiplication gates
    synthesised so far. Both only grow.
   */
  class ConstraintSystem {
    var committed: seq<Scalar>
    var gates: seq<Gate>

    constructor ()
      ensures committed == [] && gates == []
    {
      committed := [];
      gates := [];
    }

    /** `prover.commit(value, blinding)`: a fresh committed variable standing for `value`. */
    method Commit(value: Scalar) returns (v: Variable)
      modifies this
      ensures committed == old(committed) + [value]
      ensures gates == old(gates)
      ensures v == Committed(|old(committed)|)
    {
      v := Committed(|committed|);
      committed := committed + [value];
    }

    /** `cs.multiply(left, right)`: allocate the next gate, bind its inputs, and return its three wires. */
    method Multiply(left: LinearCombination, right: LinearCombination) returns (l: Variable, r: Variable, o: Variable)
      modifies this
      ensures committed == old(committed)
      ensures gates == old(gates) + [Gate(left, right)]
      ensures l == MultiplierLeft(|old(gates)|)
      ensures r == MultiplierRight(|old(gates)|)
      ensures o == MultiplierOutput(|old(gates)|)
    {
      var n := |gates|;
      gates := gates + [Gate(left, right)];
      l, r, o := MultiplierLeft(n), MultiplierRight(n), MultiplierOutput(n);
    }
  }
}
