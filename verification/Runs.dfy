/** Runs of a state machine: a step function folded over a sequence of inputs. */
module Runs {

  function Run<S, A>(step: (S, A) -> S, s: S, acts: seq<A>): S
  {
    if acts == [] then s else step(Run(step, s, acts[..|acts| - 1]), acts[|acts| - 1])
  }

  lemma RunOneMore<S, A>(step: (S, A) -> S, s: S, acts: seq<A>, a: A)
    ensures Run(step, s, acts + [a]) == step(Run(step, s, acts), a)
  {
    assert (acts + [a])[..|acts + [a]| - 1] == acts;
  }

  /** Running one sequence of inputs after another is running their concatenation. */
  lemma {:induction false} RunJoin<S, A>(step: (S, A) -> S, s: S, first: seq<A>, next: seq<A>)
    ensures Run(step, s, first + next) == Run(step, Run(step, s, first), next)
  {
    if next == [] {
      assert first + next == first;
    } else {
      var front, a := next[..|next| - 1], next[|next| - 1];
      RunJoin(step, s, first, front);
      assert first + next == (first + front) + [a];
      RunOneMore(step, s, first + front, a);
    }
  }

  /** The same input `n` times. */
  function Repeated<A>(a: A, n: nat): (acts: seq<A>)
    ensures |acts| == n
  {
    seq(n, _ => a)
  }

  /** What one step carries from `n` to `n + 1`, as long as `n` is below a limit, a run of that input carries along. */
  lemma {:induction false} RunRepeated<S(!new), A>(step: (S, A) -> S, s: S, acts: seq<A>, a: A,
                                                   p: (S, nat) -> bool, limit: nat, n: nat)
    requires n <= limit && p(Run(step, s, acts), 0)
    requires forall t: S, k: nat, m: nat :: p(t, k) && k < limit && m == k + 1 ==> p(step(t, a), m)
    ensures p(Run(step, s, acts + Repeated(a, n)), n)
  {
    if n == 0 {
      assert acts + Repeated(a, 0) == acts;
    } else {
      RunRepeated(step, s, acts, a, p, limit, n - 1);
      assert acts + Repeated(a, n) == (acts + Repeated(a, n - 1)) + [a];
      RunOneMore(step, s, acts + Repeated(a, n - 1), a);
    }
  }

  function Weight<A>(w: A -> nat, acts: seq<A>): nat
  {
    if acts == [] then 0 else Weight(w, acts[..|acts| - 1]) + w(acts[|acts| - 1])
  }

  /** Some state of a run, its first and last included, has a property. */
  ghost predicate Passes<S, A>(step: (S, A) -> S, s: S, acts: seq<A>, p: S -> bool)
  {
    exists j :: 0 <= j <= |acts| && p(Run(step, s, acts[..j]))
  }

  lemma PassesLater<S, A>(step: (S, A) -> S, s: S, acts: seq<A>, p: S -> bool, n: nat)
    requires n <= |acts| && Passes(step, s, acts[..n], p)
    ensures Passes(step, s, acts, p)
  {
    var j :| 0 <= j <= n && p(Run(step, s, acts[..n][..j]));
    assert acts[..n][..j] == acts[..j];
  }

  lemma PassesLast<S, A>(step: (S, A) -> S, s: S, acts: seq<A>, p: S -> bool)
    requires p(Run(step, s, acts))
    ensures Passes(step, s, acts, p)
  {
    assert acts[..|acts|] == acts;
  }

  /** What every step carries on, with one more step and the weight of its input, lasts until some state has `p`. */
  lemma {:induction false} RunFlies<S(!new), A(!new)>(step: (S, A) -> S, s: S, acts: seq<A>, w: A -> nat,
                                                      inv: S -> bool, f: (S, nat, nat) -> bool, p: S -> bool)
    requires inv(s) && f(s, 0, 0)
    requires forall t: S, a: A :: inv(t) ==> inv(step(t, a))
    requires forall t: S, a: A, n: nat, m: nat, k: nat, l: nat ::
               inv(t) && f(t, n, k) && m == n + 1 && l == k + w(a) ==> f(step(t, a), m, l) || p(step(t, a))
    ensures inv(Run(step, s, acts))
    ensures Passes(step, s, acts, p) || f(Run(step, s, acts), |acts|, Weight(w, acts))
  {
    if acts != [] {
      var n := |acts| - 1;
      var t, k := Run(step, s, acts[..n]), Weight(w, acts[..n]);
      RunFlies(step, s, acts[..n], w, inv, f, p);
      if Passes(step, s, acts[..n], p) {
        PassesLater(step, s, acts, p, n);
      } else if p(step(t, acts[n])) {
        PassesLast(step, s, acts, p);
      } else {
        assert f(t, n, k) && f(step(t, acts[n]), n + 1, k + w(acts[n]));
      }
    }
  }
}
