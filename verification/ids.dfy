/** The bounded id generator of src/utils.js.

    `idGenerator` is a JavaScript generator: its body runs lazily, yields
    1, 2, ... while the counter is below Number.MAX_SAFE_INTEGER, then
    throws.  A generator whose body has thrown is completed, so every later
    `next()` returns `{ value: undefined, done: true }`; `makeIdGenerator`
    returns `gen.next().value`, hence `undefined` after the throw. */
module Ids {

  /** Number.MAX_SAFE_INTEGER = 2^53 - 1. */
  const MaxSafeInteger: int := 0x1F_FFFF_FFFF_FFFF

  const ExhaustedMessage: string := "Cannot generate more ids"

  /** Suspended(i): the loop counter `i` before the next test; Completed: after the throw. */
  datatype Generator = Suspended(counter: int) | Completed

  /** What one call of the function returned by `makeIdGenerator` produces. */
  datatype Outcome = Id(id: int) | Thrown(message: string) | Undefined

  /** A fresh generator: the body starts with `i = 1`. */
  function Fresh(): Generator {
    Suspended(1)
  }

  /** The states a generator can reach from `Fresh()`. */
  predicate Reachable(g: Generator) {
    g.Completed? || 1 <= g.counter <= MaxSafeInteger
  }

  /** One `gen.next().value`. */
  function Next(g: Generator): (r: (Outcome, Generator))
    requires Reachable(g)
    ensures Reachable(r.1)
    ensures r.0.Id? ==> 1 <= r.0.id < MaxSafeInteger
    ensures r.0.Id? <==> g.Suspended? && g.counter < MaxSafeInteger
    ensures r.0.Id? ==> r.1 == Suspended(r.0.id + 1) && r.0.id == g.counter
    ensures r.0.Thrown? <==> g == Suspended(MaxSafeInteger)
    ensures g.Completed? ==> r == (Undefined, Completed)
  {
    match g
    case Completed => (Undefined, Completed)
    case Suspended(i) =>
      if i < MaxSafeInteger then (Id(i), Suspended(i + 1))
      else (Thrown(ExhaustedMessage), Completed)
  }

  /** The outcomes of `n` successive calls, and the generator afterwards. */
  function Calls(g: Generator, n: nat): (r: (seq<Outcome>, Generator))
    requires Reachable(g)
    ensures |r.0| == n && Reachable(r.1)
    decreases n
  {
    if n == 0 then ([], g)
    else
      var (o, g') := Next(g);
      var (os, g'') := Calls(g', n - 1);
      ([o] + os, g'')
  }

  /** From counter `i`, the next `n` calls (all below the bound) yield i, i+1, ..., i+n-1. */
  lemma {:induction false} CallsCount(i: int, n: nat)
    requires 1 <= i && i + n <= MaxSafeInteger
    ensures Calls(Suspended(i), n).1 == Suspended(i + n)
    ensures forall k :: 0 <= k < n ==> Calls(Suspended(i), n).0[k] == Id(i + k)
    decreases n
  {
    if n > 0 {
      CallsCount(i + 1, n - 1);
      var rest := Calls(Suspended(i + 1), n - 1);
      assert Calls(Suspended(i), n) == ([Id(i)] + rest.0, rest.1);
    }
  }

  /** A fresh generator yields 1, 2, ..., n for every n up to 2^53 - 2;
      in particular its first call returns 1 and every call returns the
      previous id plus one. */
  lemma FreshYieldsSuccessors(n: nat)
    requires n <= MaxSafeInteger - 1
    ensures forall k :: 0 <= k < n ==> Calls(Fresh(), n).0[k] == Id(k + 1)
    ensures n > 0 ==> Calls(Fresh(), n).0[0] == Id(1)
    ensures forall k :: 0 < k < n ==> Calls(Fresh(), n).0[k].id == Calls(Fresh(), n).0[k - 1].id + 1
  {
    CallsCount(1, n);
  }

  /** After 2^53 - 2 ids the next call throws, and every call after that
      returns `undefined`. */
  lemma ExhaustionThrowsOnce(extra: nat)
    ensures Calls(Fresh(), MaxSafeInteger - 1).1 == Suspended(MaxSafeInteger)
    ensures Next(Calls(Fresh(), MaxSafeInteger - 1).1) == (Thrown(ExhaustedMessage), Completed)
    ensures Calls(Completed, extra).1 == Completed
    ensures forall k :: 0 <= k < extra ==> Calls(Completed, extra).0[k] == Undefined
  {
    CallsCount(1, MaxSafeInteger - 1);
    CompletedStaysUndefined(extra);
  }

  lemma {:induction false} CompletedStaysUndefined(n: nat)
    ensures Calls(Completed, n).1 == Completed
    ensures forall k :: 0 <= k < n ==> Calls(Completed, n).0[k] == Undefined
  {
    if n > 0 {
      CompletedStaysUndefined(n - 1);
      assert Calls(Completed, n) == ([Undefined] + Calls(Completed, n - 1).0, Completed);
    }
  }

  /** Several generators made by separate `makeIdGenerator` calls: each
      closure owns its own generator. */
  type Generators = seq<Generator>

  /** `makeIdGenerator()`: a new, independent generator; its index is `|gens|`. */
  function MakeIdGenerator(gens: Generators): (r: Generators)
    ensures |r| == |gens| + 1 && r[..|gens|] == gens && r[|gens|] == Fresh()
  {
    gens + [Fresh()]
  }

  /** Calling the `k`-th generator's function. */
  function CallGenerator(gens: Generators, k: nat): (r: (Outcome, Generators))
    requires k < |gens| && Reachable(gens[k])
    ensures |r.1| == |gens| && r.1[k] == Next(gens[k]).1 && r.0 == Next(gens[k]).0
    ensures forall j :: 0 <= j < |gens| && j != k ==> r.1[j] == gens[j]
  {
    var (o, g) := Next(gens[k]);
    (o, gens[k := g])
  }

  /** Two generators count independently: interleaving a call of another
      generator between two calls of generator `k` does not change what `k` yields. */
  lemma GeneratorsIndependent(gens: Generators, k: nat, other: nat)
    requires k < |gens| && other < |gens| && k != other
    requires Reachable(gens[k]) && Reachable(gens[other])
    requires gens[k].Suspended? && gens[k].counter < MaxSafeInteger
    ensures CallGenerator(CallGenerator(gens, other).1, k).0 == Id(gens[k].counter)
  {
  }
}
