/** `txNoncer` and the part of the chain state the pool reads. */
module Noncer {
  import opened Prelude
  import opened Transactions

  /** The state at a chain head; an account it does not know has nonce and balance zero. */
  datatype World = World(nonces: map<Address, u64>, balances: map<Address, nat>) {
    function Nonce(a: Address): u64 {
      if a in nonces then nonces[a] else 0
    }

    function Balance(a: Address): nat {
      if a in balances then balances[a] else 0
    }
  }

  /** The cached virtual nonce of an account, or its state nonce. */
  function VirtualNonce(nonces: map<Address, u64>, world: World, a: Address): u64 {
    if a in nonces then nonces[a] else world.Nonce(a)
  }

  /** Virtual nonces over a state; reading one caches it. */
  class TxNoncer {
    const fallback: World
    var nonces: map<Address, u64>

    ghost function Peek(a: Address): u64
      reads this
    {
      VirtualNonce(nonces, fallback, a)
    }

    constructor (world: World)
      ensures fallback == world && nonces == map[] && forall a :: Peek(a) == world.Nonce(a)
    {
      fallback, nonces := world, map[];
    }

    method Get(a: Address) returns (n: u64)
      modifies this
      ensures n == Peek(a) && forall b :: Peek(b) == old(Peek(b))
    {
      if a !in nonces {
        nonces := nonces[a := fallback.Nonce(a)];
      }
      n := nonces[a];
    }

    method Set(a: Address, n: u64)
      modifies this
      ensures Peek(a) == n && forall b :: b != a ==> Peek(b) == old(Peek(b))
    {
      nonces := nonces[a := n];
    }

    method SetIfLower(a: Address, n: u64)
      modifies this
      ensures Peek(a) == (if old(Peek(a)) <= n then old(Peek(a)) else n)
      ensures forall b :: b != a ==> Peek(b) == old(Peek(b))
    {
      if a !in nonces {
        nonces := nonces[a := fallback.Nonce(a)];
      }
      if nonces[a] <= n {
        return;
      }
      nonces := nonces[a := n];
    }

    method SetAll(all: map<Address, u64>)
      modifies this
      ensures forall a :: Peek(a) == if a in all then all[a] else fallback.Nonce(a)
    {
      nonces := all;
    }
  }

  /** `run` is exactly the nonces from `s` up to, not including, `p`. */
  ghost predicate Exact(run: set<u64>, s: u64, p: u64) {
    s <= p && forall n :: n in run <==> s <= n < p
  }

  /** No nonce from `s` on is missing below a stored one. */
  ghost predicate Gapless(run: set<u64>, s: u64) {
    forall n, k: u64 :: n in run && s <= k <= n ==> k in run
  }

  /**
   What survives between a change of state and the demotion that follows it:
   the nonces from `s` on have no gap at `s` or above, and a virtual nonce
   beyond `s` ends them.
   */
  ghost predicate Settling(run: set<u64>, s: u64, p: u64) {
    && Gapless(run, s)
    && (p > s ==> forall n: u64 :: s <= n ==> (n in run <==> n < p))
  }

  /** Cutting a run at one of its nonces and lowering the virtual nonce to it. */
  lemma CutRun(run: set<u64>, s: u64, p: u64, n: u64, cut: set<u64>)
    requires n in run && forall k :: k in cut <==> k in run && k < n
    ensures Exact(run, s, p) ==> Exact(cut, s, Min(p, n))
    ensures Settling(run, s, p) ==> Settling(cut, s, Min(p, n))
  {
  }

  /** Appending the queued run that starts at or below the virtual nonce. */
  lemma ExtendRun(run: set<u64>, s: u64, p: u64, first: u64, end: int, longer: set<u64>)
    requires s <= first <= p && first < end <= MAX_U64
    requires forall k: u64 :: first <= k < end ==> k !in run
    requires forall k: u64 :: k in longer <==> k in run || first <= k < end
    ensures Exact(run, s, p) ==> Exact(longer, s, end)
    ensures Settling(run, s, p) ==> Settling(longer, s, end)
  {
    assert first !in run;
    if Settling(run, s, p) && p <= s {
      assert s !in run;
    }
  }

  /** A promoted run that reaches the last 64-bit nonce wraps the virtual nonce to zero: it is no longer exact. */
  lemma WrapLosesRun(run: set<u64>, s: u64, p: u64, first: u64, longer: set<u64>)
    requires s <= first <= p && forall k: u64 :: k in longer <==> k in run || first <= k
    ensures !Exact(longer, s, Succ(MAX_U64))
    ensures Settling(run, s, p) ==> Settling(longer, s, Succ(MAX_U64))
  {
    var last: u64 := MAX_U64;
    assert last in longer;
  }

  /** What promoting the run from `first` to `end` does to an exact or settling account. */
  lemma PromotedIff(run: set<u64>, s: u64, p: u64, first: u64, end: int, longer: set<u64>)
    requires s <= first <= p && first < end <= MAX_U64 + 1
    requires forall k: u64 :: first <= k < end ==> k !in run
    requires forall k: u64 :: k in longer <==> k in run || first <= k < end
    ensures Exact(run, s, p) ==> (Exact(longer, s, Succ(end - 1)) <==> end <= MAX_U64)
    ensures Settling(run, s, p) ==> Settling(longer, s, Succ(end - 1))
  {
    hide Exact, Settling;
    if end <= MAX_U64 {
      ExtendRun(run, s, p, first, end, longer);
    } else {
      WrapLosesRun(run, s, p, first, longer);
    }
  }

  /** A run that holds the last 64-bit nonce is never exact. */
  lemma LastIsNeverExact(run: set<u64>, s: u64, p: u64)
    requires MAX_U64 in run
    ensures !Exact(run, s, p)
  {
  }

  /**
   A run without stale nonces is exact up to the successor of its last nonce if
   and only if it has no gap and does not hold the last 64-bit nonce.
   */
  lemma ExactIffGapless(run: set<u64>, s: u64, last: u64)
    requires last in run && forall n :: n in run ==> s <= n <= last
    ensures Exact(run, s, Succ(last)) <==> Gapless(run, s) && MAX_U64 !in run
  {
  }

  /** A head change that does not lower the state nonce leaves an exact run settling. */
  lemma HeadMovedOn(run: set<u64>, s: u64, p: u64, next: u64)
    requires Exact(run, s, p) && s <= next
    ensures Settling(run, next, next)
  {
  }

  lemma ExactSettles(run: set<u64>, s: u64, p: u64)
    requires Exact(run, s, p)
    ensures Settling(run, s, p)
  {
  }
}
