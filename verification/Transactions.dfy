/**
 Transactions as the pool sees them, and the nonce-keyed collections the pool
 stores them in, as values.
 */
module Transactions {
  import opened Prelude

  const SLOT_SIZE: int := 32 * 1024

  /** `n + 1` on a 64-bit word. */
  function Succ(n: u64): u64 {
    if n == MAX_U64 then 0 else n + 1
  }

  type Address = nat

  datatype TxKind = Legacy | AccessListTx | DynamicFee

  /** What a transaction carries besides its fees: byte and access-list counts, which price it. */
  datatype Payload = Payload(zeros: nat, nonZeros: nat, accessList: bool, addresses: nat, keys: nat, creation: bool)

  /** `sender` is the address the signature recovers to; it means something only when `signed`. */
  datatype Tx = Tx(
    sender: Address, signed: bool, kind: TxKind, nonce: u64, gas: u64, value: int,
    feeCap: nat, tipCap: nat, size: nat, payload: Payload)
  {
    /** value + gas limit * price; a dynamic-fee transaction's price is its fee cap */
    function Cost(): int {
      feeCap * gas + value
    }

    function Slots(): nat {
      (size + SLOT_SIZE - 1) / SLOT_SIZE
    }

    /** Hashing is ideal: a digest determines what it digests. */
    function Hash(): Hash {
      Digest(this)
    }
  }

  datatype Hash = Digest(preimage: Tx)

  type Items = map<u64, Tx>

  /** Every transaction is stored under its own nonce. */
  ghost predicate Keyed(m: Items) {
    forall n :: n in m ==> m[n].nonce == n
  }

  /** The smallest nonce stored. */
  function MinNonce(m: Items): (r: u64)
    requires m != map[]
    ensures r in m && forall n :: n in m ==> r <= n
  {
    assert exists r :: r in m && forall n | n in m :: r <= n by {
      var r := Least(m.Keys);
      assert r in m;
    }
    var r :| r in m && forall n | n in m :: r <= n;
    r
  }

  lemma {:induction false} Least(s: set<u64>) returns (r: u64)
    requires s != {}
    ensures r in s && forall n | n in s :: r <= n
  {
    var x :| x in s;
    if s == {x} {
      r := x;
    } else {
      var rest := s - {x};
      assert forall n | n in s :: n == x || n in rest;
      r := Least(rest);
      if x < r {
        r := x;
      }
    }
  }

  /** The contents of `m` in nonce order. */
  function Flat(m: Items): (s: seq<Tx>)
    ensures |s| == |m|
    decreases |m|
  {
    if m == map[] then []
    else
      var n := MinNonce(m);
      assert (m - {n}).Keys == m.Keys - {n};
      [m[n]] + Flat(m - {n})
  }

  /** The nonces of `m` in increasing order. */
  function Nonces(m: Items): (s: seq<u64>)
    ensures |s| == |m|
    decreases |m|
  {
    if m == map[] then []
    else
      var n := MinNonce(m);
      assert (m - {n}).Keys == m.Keys - {n};
      [n] + Nonces(m - {n})
  }

  lemma {:induction false} NoncesOfFlat(m: Items)
    requires Keyed(m)
    ensures forall i :: 0 <= i < |m| ==>
      Nonces(m)[i] in m && Flat(m)[i] == m[Nonces(m)[i]] && Flat(m)[i].nonce == Nonces(m)[i]
    decreases |m|
  {
    if m != map[] {
      var n := MinNonce(m);
      assert (m - {n}).Keys == m.Keys - {n};
      NoncesOfFlat(m - {n});
    }
  }

  /** The last listed transaction has the greatest nonce. */
  lemma {:induction false} LastIsGreatest(m: Items)
    requires Keyed(m) && m != map[]
    ensures var t := Flat(m)[|m| - 1]; t.nonce in m && m[t.nonce] == t && forall n :: n in m ==> n <= t.nonce
    decreases |m|
  {
    var n := MinNonce(m);
    var rest := m - {n};
    assert rest.Keys == m.Keys - {n};
    if rest != map[] {
      LastIsGreatest(rest);
      assert Flat(m)[|m| - 1] == Flat(rest)[|rest| - 1];
    }
    var t := Flat(m)[|m| - 1];
    forall k | k in m
      ensures k <= t.nonce
    {
      assert k != n ==> k in rest;
    }
  }

  ghost predicate Increasing(s: seq<Tx>) {
    forall i, j :: 0 <= i < j < |s| ==> s[i].nonce < s[j].nonce
  }

  /** `Flat` lists exactly the stored transactions, by strictly increasing nonce. */
  lemma {:induction false} FlatIsSorted(m: Items)
    requires Keyed(m)
    ensures Increasing(Flat(m))
    ensures forall i :: 0 <= i < |m| ==> Flat(m)[i].nonce in m && m[Flat(m)[i].nonce] == Flat(m)[i]
    decreases |m|
  {
    if m != map[] {
      var n := MinNonce(m);
      assert (m - {n}).Keys == m.Keys - {n};
      FlatIsSorted(m - {n});
    }
  }

  /** ... and is the only such listing. */
  lemma {:induction false} FlatUnique(m: Items, s: seq<Tx>)
    requires Keyed(m) && Increasing(s) && |s| == |m|
    requires forall i :: 0 <= i < |s| ==> s[i].nonce in m && m[s[i].nonce] == s[i]
    ensures s == Flat(m)
    decreases |m|
  {
    if m != map[] {
      var n := MinNonce(m);
      FirstIsLeast(m.Keys, s, n);
      var rest, t := m - {n}, s[1..];
      assert rest.Keys == m.Keys - {n};
      assert forall i :: 0 <= i < |t| ==> t[i] == s[i + 1] && t[i].nonce > n;
      FlatUnique(rest, t);
      assert s == [s[0]] + t;
    }
  }

  lemma FirstIsLeast(keys: set<u64>, s: seq<Tx>, n: u64)
    requires Increasing(s) && |s| == |keys| && n in keys && forall k :: k in keys ==> n <= k
    requires forall i :: 0 <= i < |s| ==> s[i].nonce in keys
    ensures |s| > 0 && s[0].nonce == n
  {
    CountsAll(keys, s);
    var i :| 0 <= i < |s| && s[i].nonce == n;
  }

  /** A duplicate-free listing as long as the set it draws from misses nothing. */
  lemma {:induction false} CountsAll(keys: set<u64>, s: seq<Tx>)
    requires Increasing(s) && |s| == |keys|
    requires forall i :: 0 <= i < |s| ==> s[i].nonce in keys
    ensures forall n :: n in keys ==> exists i :: 0 <= i < |s| && s[i].nonce == n
  {
    if s != [] {
      var last := s[|s| - 1].nonce;
      var t := s[..|s| - 1];
      CountsAll(keys - {last}, t);
      forall n | n in keys
        ensures exists i :: 0 <= i < |s| && s[i].nonce == n
      {
        if n == last {
          assert s[|s| - 1].nonce == n;
        } else {
          assert n in keys - {last};
          var i :| 0 <= i < |t| && t[i].nonce == n;
          assert s[i].nonce == n;
        }
      }
    }
  }

  function BelowNonce(m: Items, cut: int): Items {
    map n | n in m && n < cut :: m[n]
  }

  function FromNonce(m: Items, cut: int): Items {
    map n | n in m && n >= cut :: m[n]
  }

  lemma FromNoncePop(m: Items, n: u64, cut: int)
    requires n in m && n < cut
    ensures FromNonce(m - {n}, cut) == FromNonce(m, cut)
  {
  }

  lemma FromNonceStep(m: Items, cut: int)
    ensures 0 <= cut <= MAX_U64 ==> FromNonce(m, cut) - {cut} == FromNonce(m, cut + 1)
  {
  }

  lemma FromNonceAll(m: Items, cut: int)
    requires forall n :: n in m ==> n >= cut
    ensures FromNonce(m, cut) == m
  {
  }

  /** The first nonce from `n` on that `m` does not hold; 2^64 when it holds all of them. */
  function RunEnd(m: Items, n: int): (r: int)
    requires 0 <= n <= MAX_U64 + 1
    ensures n <= r <= MAX_U64 + 1
    ensures forall k :: n <= k < r ==> k in m
    ensures r <= MAX_U64 ==> r !in m
    decreases MAX_U64 + 1 - n
  {
    if n <= MAX_U64 && n in m then RunEnd(m, n + 1) else n
  }
}
