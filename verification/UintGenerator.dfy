/**
 The identifier generator behind TMSIs, subscription and promise identifiers
 (utils/uint_generator.hpp): a counter of fixed width that wraps around and
 steps over every identifier still in use.
 */
module UintGenerator {

  /** The identifier a number of increments after another one. */
  function After(last: nat, steps: nat, modulus: nat): (uid: nat)
    requires modulus > 0
    ensures uid < modulus
  {
    (last + steps) % modulus
  }

  function FirstSteps(last: nat, steps: nat, modulus: nat): set<nat>
    requires modulus > 0
  {
    set k | 1 <= k <= steps :: After(last, k, modulus)
  }

  /** Fewer increments than there are identifiers never come to the same one twice. */
  lemma StepsDiffer(last: nat, j: nat, k: nat, modulus: nat)
    requires modulus > 0 && 1 <= j < k <= modulus
    ensures After(last, j, modulus) != After(last, k, modulus)
  {
    if After(last, j, modulus) == After(last, k, modulus) {
      var p, q := (last + j) / modulus, (last + k) / modulus;
      assert modulus * p + After(last, j, modulus) == last + j && modulus * q + After(last, k, modulus) == last + k;
      assert modulus * (q - p) == k - j;
      MultipleIsLarge(modulus, q - p);
    }
  }

  lemma MultipleIsLarge(modulus: nat, n: int)
    requires modulus > 0
    ensures modulus * n <= 0 || modulus * n >= modulus
  {
    if n >= 1 { assert modulus * n == modulus + modulus * (n - 1); }
  }

  lemma {:induction false} FirstStepsSize(last: nat, steps: nat, modulus: nat)
    requires modulus > 0 && steps <= modulus
    ensures |FirstSteps(last, steps, modulus)| == steps
  {
    if steps == 0 {
      assert FirstSteps(last, 0, modulus) == {};
    } else {
      FirstStepsSize(last, steps - 1, modulus);
      var next := After(last, steps, modulus);
      assert FirstSteps(last, steps, modulus) == FirstSteps(last, steps - 1, modulus) + {next};
      forall k | 1 <= k <= steps - 1 ensures After(last, k, modulus) != next {
        StepsDiffer(last, k, steps, modulus);
      }
    }
  }

  lemma SubsetSize(a: set<nat>, b: set<nat>)
    requires a <= b
    ensures |a| <= |b|
  {
    assert b == a + (b - a);
  }

  /** The identifier that comes next: the first one after the last that is not in use. */
  ghost predicate IsNext(used: set<nat>, last: nat, uid: nat, modulus: nat)
    requires modulus > 0
  {
    && uid < modulus && uid !in used
    && exists steps :: 1 <= steps <= |used| + 1 && uid == After(last, steps, modulus)
                       && FirstSteps(last, steps - 1, modulus) <= used
  }

  /** The identifier right after the last, if it is not in use. */
  lemma RightAfterIsNext(used: set<nat>, last: nat, modulus: nat)
    requires modulus > 0 && (last + 1) % modulus !in used
    ensures IsNext(used, last, (last + 1) % modulus, modulus)
  {
    assert FirstSteps(last, 0, modulus) == {};
    assert (last + 1) % modulus == After(last, 1, modulus);
  }

  /** Stepping over one more identifier in use leaves at least one that is not. */
  lemma StepOver(used: set<nat>, last: nat, steps: nat, modulus: nat)
    requires modulus > 0 && |used| < modulus && 1 <= steps <= |used| + 1
    requires FirstSteps(last, steps - 1, modulus) <= used && After(last, steps, modulus) in used
    ensures steps <= |used| && FirstSteps(last, steps, modulus) <= used
  {
    assert FirstSteps(last, steps, modulus) == FirstSteps(last, steps - 1, modulus) + {After(last, steps, modulus)};
    FirstStepsSize(last, steps, modulus);
    SubsetSize(FirstSteps(last, steps, modulus), used);
  }

  /** While fewer identifiers are in use than there are, there is a next one. */
  lemma SomeNext(used: set<nat>, last: nat, modulus: nat) returns (uid: nat)
    requires modulus > 0 && |used| < modulus
    ensures IsNext(used, last, uid, modulus)
  {
    var steps := 1;
    assert FirstSteps(last, 0, modulus) == {};
    while After(last, steps, modulus) in used
      invariant 1 <= steps <= |used| + 1 && FirstSteps(last, steps - 1, modulus) <= used
      decreases |used| + 1 - steps
    {
      StepOver(used, last, steps, modulus);
      steps := steps + 1;
    }
    uid := After(last, steps, modulus);
  }

  class Generator {
    const modulus: nat
    var last: nat
    var generated: set<nat>

    ghost predicate Valid()
      reads this
    {
      modulus > 0 && last < modulus && forall u :: u in generated ==> u < modulus
    }

    constructor (modulus: nat)
      requires modulus > 0
      ensures Valid() && this.modulus == modulus && last == 0 && generated == {}
    {
      this.modulus := modulus;
      last := 0;
      generated := {};
    }

    /** Never an identifier still in use. With all of them in use the source searches for ever. */
    method GetUid() returns (uid: nat)
      requires Valid() && |generated| < modulus
      modifies this
      ensures Valid() && uid !in old(generated) && IsNext(old(generated), old(last), uid, modulus)
      ensures generated == old(generated) + {uid} && last == uid
    {
      uid := (last + 1) % modulus;
      ghost var steps := 1;
      ghost var start := last;
      while uid in generated
        invariant 1 <= steps <= |generated| + 1 && uid == After(start, steps, modulus)
        invariant FirstSteps(start, steps - 1, modulus) <= generated
        invariant generated == old(generated)
        decreases |generated| + 1 - steps
      {
        StepOver(generated, start, steps, modulus);
        NextStep(start, steps, modulus);
        uid := (uid + 1) % modulus;
        steps := steps + 1;
      }
      generated := generated + {uid};
      last := uid;
    }

    method FreeUid(uid: nat)
      requires Valid()
      modifies this
      ensures Valid() && generated == old(generated) - {uid} && last == old(last)
    {
      generated := generated - {uid};
    }
  }

  lemma NextStep(last: nat, steps: nat, modulus: nat)
    requires modulus > 0
    ensures (After(last, steps, modulus) + 1) % modulus == After(last, steps + 1, modulus)
  {
    var n := last + steps;
    var p, r := n / modulus, n % modulus;
    assert n + 1 == modulus * p + (r + 1);
    if r + 1 == modulus {
      assert n + 1 == modulus * (p + 1);
      ModuloOf(modulus, p + 1, 0);
      ModuloOf(modulus, 1, 0);
    } else {
      ModuloOf(modulus, p, r + 1);
      ModuloOf(modulus, 0, r + 1);
    }
  }

  lemma ModuloOf(modulus: nat, p: nat, r: nat)
    requires r < modulus
    ensures (modulus * p + r) % modulus == r
  {
    var n := modulus * p + r;
    var d := n / modulus - p;
    assert modulus * d == r - n % modulus;
    MultipleIsLarge(modulus, d);
    MultipleIsLarge(modulus, -d);
  }
}
