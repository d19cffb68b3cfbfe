/** Facts about the moments of a run, one truth value for each. */
module Moments {

  // What every step keeps holds from its first moment on.
  lemma {:induction false} Persists(holds: seq<bool>, from: nat, n: nat)
    requires from <= n < |holds| && holds[from]
    requires forall i | from <= i < n && holds[i] :: holds[i + 1]
    ensures forall i | from <= i <= n :: holds[i]
    decreases n
  {
    if from < n {
      Persists(holds, from, n - 1);
      assert holds[n - 1];
    }
  }

  // What steps can only add was there at first or was added in between.
  lemma {:induction false} ComesFromSomewhere(there: seq<bool>, added: seq<bool>, from: nat, n: nat)
    requires from <= n < |there| && n <= |added|
    requires forall i | from <= i < n :: there[i + 1] <==> there[i] || added[i]
    ensures there[n] <==> there[from] || exists j :: from <= j < n && added[j]
    decreases n
  {
    if from < n {
      ComesFromSomewhere(there, added, from, n - 1);
    }
  }
}
