/**
 The diff layers received from untrusted peers (`core/blockchain.go`): five
 maps that refer to each other, changed when a layer arrives, when the layers
 of a peer turn out invalid, and when old ones are pruned.
 */
module DiffLayers {
  import opened Prelude

  datatype BlockHash = BlockHash(id: nat)
  datatype DiffHash = DiffHash(id: nat)
  type Peer = string

  datatype DiffLayer = DiffLayer(block: BlockHash, number: u64, body: nat)

  const MAX_DIFF_QUEUE_DIST := 2048
  const MAX_DIFF_LIMIT := 2048
  const MAX_DIFF_FORK_DIST := 11
  const MAX_DIFF_LIMIT_FOR_BROADCAST := 128

  type Layers = map<BlockHash, map<DiffHash, DiffLayer>>

  datatype Store = Store(
    layers: Layers,
    blockOf: map<DiffHash, BlockHash>,
    peersOf: map<DiffHash, set<Peer>>,
    listed: map<nat, set<BlockHash>>,
    diffsOf: map<Peer, set<DiffHash>>)

  ghost predicate Lists(listed: map<nat, set<BlockHash>>, layer: DiffLayer) {
    layer.number in listed && layer.block in listed[layer.number]
  }

  ghost predicate Has(layers: Layers, b: BlockHash, d: DiffHash) {
    b in layers && d in layers[b]
  }

  ghost predicate Owns(diffsOf: map<Peer, set<DiffHash>>, p: Peer, d: DiffHash) {
    p in diffsOf && d in diffsOf[p]
  }

  /** block→diff agrees with diff→block, and every held layer is listed under its number. */
  ghost predicate BlocksAgree(s: Store) {
    && (forall d :: d in s.blockOf ==> Has(s.layers, s.blockOf[d], d))
    && (forall b :: b in s.layers ==> s.layers[b] != map[])
    && (forall b, d :: Has(s.layers, b, d) ==>
          && d in s.blockOf && s.blockOf[d] == b && s.layers[b][d].block == b && Lists(s.listed, s.layers[b][d]))
  }

  /** peer→diff is the inverse of diff→peer, with exactly one peer for every held diff. */
  ghost predicate PeersAgree(s: Store) {
    && s.peersOf.Keys == s.blockOf.Keys
    && (forall d, p :: d in s.peersOf && p in s.peersOf[d] ==> Owns(s.diffsOf, p, d))
    && (forall d, p :: Owns(s.diffsOf, p, d) ==> d in s.peersOf && s.peersOf[d] == {p})
    && (forall d :: d in s.peersOf ==> s.peersOf[d] != {})
    && (forall p :: p in s.diffsOf ==> s.diffsOf[p] != {} && |s.diffsOf[p]| <= MAX_DIFF_LIMIT + 1)
  }

  ghost predicate Consistent(s: Store) {
    BlocksAgree(s) && PeersAgree(s)
  }

  // ---------------------------------------------------------------- dropping diffs

  ghost function LayersWithout(layers: Layers, gone: set<DiffHash>): Layers {
    map b | b in layers && !(layers[b].Keys <= gone) :: layers[b] - gone
  }

  ghost function PeersWithout(diffsOf: map<Peer, set<DiffHash>>, gone: set<DiffHash>): map<Peer, set<DiffHash>> {
    map p | p in diffsOf && !(diffsOf[p] <= gone) :: diffsOf[p] - gone
  }

  ghost function Dropped(s: Store, gone: set<DiffHash>, listed: map<nat, set<BlockHash>>): Store {
    Store(LayersWithout(s.layers, gone), s.blockOf - gone, s.peersOf - gone, listed, PeersWithout(s.diffsOf, gone))
  }

  /** A number may leave the list with all its blocks once no held layer has it. */
  lemma DropKeeps(s: Store, gone: set<DiffHash>, listed: map<nat, set<BlockHash>>)
    requires Consistent(s)
    requires forall b, d :: Has(s.layers, b, d) && d !in gone ==> Lists(listed, s.layers[b][d])
    ensures Consistent(Dropped(s, gone, listed))
  {
    DropKeepsBlocks(s, gone, listed);
    DropKeepsPeers(s, gone, listed);
  }

  lemma DropKeepsBlocks(s: Store, gone: set<DiffHash>, listed: map<nat, set<BlockHash>>)
    requires BlocksAgree(s)
    requires forall b, d :: Has(s.layers, b, d) && d !in gone ==> Lists(listed, s.layers[b][d])
    ensures BlocksAgree(Dropped(s, gone, listed))
  {
    hide Lists, PeersWithout, LayersWithout;
    var t := Dropped(s, gone, listed);
    LayersWithoutHas(s.layers, gone);
    forall d | d in t.blockOf ensures Has(t.layers, t.blockOf[d], d) {
      assert Has(s.layers, s.blockOf[d], d);
    }
    forall b, d | Has(t.layers, b, d)
      ensures d in t.blockOf && t.blockOf[d] == b && t.layers[b][d].block == b && Lists(t.listed, t.layers[b][d])
    {
      assert Has(s.layers, b, d);
    }
  }

  lemma LayersWithoutHas(layers: Layers, gone: set<DiffHash>)
    ensures var t := LayersWithout(layers, gone);
      && (forall b :: b in t ==> t[b] != map[])
      && (forall b, d :: Has(layers, b, d) && d !in gone ==> Has(t, b, d))
      && (forall b, d :: Has(t, b, d) ==> Has(layers, b, d) && d !in gone && t[b][d] == layers[b][d])
  {
    var t := LayersWithout(layers, gone);
    forall b | b in t ensures t[b] != map[] {
      var d :| d in layers[b] && d !in gone;
      assert d in t[b];
    }
  }

  lemma DropKeepsPeers(s: Store, gone: set<DiffHash>, listed: map<nat, set<BlockHash>>)
    requires PeersAgree(s)
    ensures PeersAgree(Dropped(s, gone, listed))
  {
    hide PeersWithout, LayersWithout;
    var t := Dropped(s, gone, listed);
    PeersWithoutHas(s.diffsOf, gone);
    forall p | p in t.diffsOf ensures t.diffsOf[p] != {} && |t.diffsOf[p]| <= MAX_DIFF_LIMIT + 1 {
      SubsetIsSmaller(t.diffsOf[p], s.diffsOf[p]);
    }
    forall d, p | Owns(t.diffsOf, p, d) ensures d in t.peersOf && t.peersOf[d] == {p} {
      assert Owns(s.diffsOf, p, d);
    }
    forall d, p | d in t.peersOf && p in t.peersOf[d] ensures Owns(t.diffsOf, p, d) {
      assert Owns(s.diffsOf, p, d);
    }
  }

  lemma PeersWithoutHas(diffsOf: map<Peer, set<DiffHash>>, gone: set<DiffHash>)
    ensures var t := PeersWithout(diffsOf, gone);
      && (forall p :: p in t ==> p in diffsOf && t[p] != {} && t[p] <= diffsOf[p])
      && (forall p, d :: Owns(diffsOf, p, d) && d !in gone ==> Owns(t, p, d))
      && (forall p, d :: Owns(t, p, d) ==> Owns(diffsOf, p, d) && d !in gone)
  {
    var t := PeersWithout(diffsOf, gone);
    forall p | p in t ensures t[p] != {} {
      var d :| d in diffsOf[p] && d !in gone;
      assert d in t[p];
    }
  }

  lemma {:induction false} SubsetIsSmaller(a: set<DiffHash>, b: set<DiffHash>)
    requires a <= b
    ensures |a| <= |b|
  {
    assert b == a + (b - a);
  }

  // ---------------------------------------------------------------- the loops of removeDiffLayers

  method CollectInvalid(pids: set<Peer>, diffsOf: map<Peer, set<DiffHash>>)
    returns (invalid: set<DiffHash>, next: map<Peer, set<DiffHash>>)
    ensures forall d :: d in invalid <==> exists p :: p in pids && Owns(diffsOf, p, d)
    ensures next == diffsOf - pids
  {
    invalid, next := {}, diffsOf;
    var rest := pids;
    while rest != {}
      invariant rest <= pids && next == diffsOf - (pids - rest)
      invariant forall d :: d in invalid <==> exists p :: p in pids - rest && Owns(diffsOf, p, d)
      decreases rest
    {
      var pid :| pid in rest;
      var more := if pid in next then next[pid] else {};
      invalid := invalid + more;
      next := next - {pid};
      rest := rest - {pid};
      assert pids - rest == pids - (rest + {pid}) + {pid};
    }
  }

  /** Deletes diffs one by one; a block whose last layer goes, goes too. */
  method DeleteDiffs(layers0: Layers, blockOf0: map<DiffHash, BlockHash>, peersOf0: map<DiffHash, set<Peer>>,
                     gone: set<DiffHash>)
    returns (layers: Layers, blockOf: map<DiffHash, BlockHash>, peersOf: map<DiffHash, set<Peer>>)
    requires gone <= blockOf0.Keys
    requires forall b, d :: Has(layers0, b, d) ==> d in blockOf0 && blockOf0[d] == b
    requires forall b :: b in layers0 ==> layers0[b] != map[]
    ensures layers == LayersWithout(layers0, gone) && blockOf == blockOf0 - gone && peersOf == peersOf0 - gone
  {
    hide LayersWithout;
    layers, blockOf, peersOf := layers0, blockOf0, peersOf0;
    LayersWithoutNone(layers0);
    var rest := gone;
    assert gone - rest == {};
    while rest != {}
      invariant rest <= gone && blockOf == blockOf0 - (gone - rest) && peersOf == peersOf0 - (gone - rest)
      invariant layers == LayersWithout(layers0, gone - rest)
      decreases rest
    {
      var d :| d in rest;
      assert gone - (rest - {d}) == gone - rest + {d};
      LayersWithoutOne(layers0, blockOf0, gone - rest, d);
      peersOf := peersOf - {d};
      var b := blockOf[d];
      if b in layers {
        var diffs := layers[b] - {d};
        layers := if diffs == map[] then layers - {b} else layers[b := diffs];
      }
      blockOf := blockOf - {d};
      rest := rest - {d};
    }
    assert gone - {} == gone;
  }

  lemma LayersWithoutNone(layers: Layers)
    requires forall b :: b in layers ==> layers[b] != map[]
    ensures LayersWithout(layers, {}) == layers
  {
    forall b | b in layers ensures !(layers[b].Keys <= {}) && layers[b] - {} == layers[b] {
      assert |layers[b]| == 0 <==> layers[b] == map[];
    }
  }

  lemma LayersWithoutOne(layers: Layers, blockOf: map<DiffHash, BlockHash>, gone: set<DiffHash>, d: DiffHash)
    requires d in blockOf && forall b, e :: Has(layers, b, e) ==> e in blockOf && blockOf[e] == b
    ensures var was, b := LayersWithout(layers, gone), blockOf[d];
      LayersWithout(layers, gone + {d}) ==
        if b !in was then was else if was[b] - {d} == map[] then was - {b} else was[b := was[b] - {d}]
  {
    var was, b := LayersWithout(layers, gone), blockOf[d];
    var now := LayersWithout(layers, gone + {d});
    forall c | c in layers && c != b
      ensures c in now <==> c in was
      ensures c in now ==> now[c] == was[c]
    {
      assert !Has(layers, c, d);
      assert layers[c] - (gone + {d}) == layers[c] - gone;
    }
    if b in was {
      assert layers[b] - (gone + {d}) == was[b] - {d};
      assert was[b] - {d} == map[] <==> layers[b].Keys <= gone + {d} by {
        assert (was[b] - {d}).Keys == layers[b].Keys - (gone + {d});
        assert was[b] - {d} == map[] <==> (was[b] - {d}).Keys == {};
      }
    }
  }

  // ---------------------------------------------------------------- the loops of pruneDiffLayer

  method SortNumbers(numbers: set<nat>) returns (r: seq<nat>)
    ensures forall i, j :: 0 <= i < j < |r| ==> r[i] < r[j]
    ensures forall n: nat :: n in r <==> n in numbers
  {
    r := [];
    var rest := numbers;
    while rest != {}
      invariant forall i, j :: 0 <= i < j < |r| ==> r[i] < r[j]
      invariant rest <= numbers && forall n: nat :: n in r <==> n in numbers - rest
      decreases rest
    {
      var n :| n in rest;
      r := InsertSorted(r, n);
      rest := rest - {n};
    }
  }

  method InsertSorted(s: seq<nat>, n: nat) returns (r: seq<nat>)
    requires n !in s && forall i, j :: 0 <= i < j < |s| ==> s[i] < s[j]
    ensures forall i, j :: 0 <= i < j < |r| ==> r[i] < r[j]
    ensures forall m: nat :: m in r <==> m in s || m == n
  {
    var k := 0;
    while k < |s| && s[k] < n
      invariant 0 <= k <= |s| && forall j :: 0 <= j < k ==> s[j] < n
    {
      k := k + 1;
    }
    assert k < |s| ==> s[k] in s && s[k] != n;
    InsertedAt(s, n, k);
    r := s[..k] + [n] + s[k..];
  }

  lemma InsertedAt(s: seq<nat>, n: nat, k: nat)
    requires k <= |s| && (forall i, j :: 0 <= i < j < |s| ==> s[i] < s[j])
    requires (forall j :: 0 <= j < k ==> s[j] < n) && (k < |s| ==> n < s[k])
    ensures var r := s[..k] + [n] + s[k..];
      && (forall i, j :: 0 <= i < j < |r| ==> r[i] < r[j])
      && (forall m: nat :: m in r <==> m in s || m == n)
  {
    var r := s[..k] + [n] + s[k..];
    forall i, j | 0 <= i < j < |r| ensures r[i] < r[j] {
      assert r[i] == if i < k then s[i] else if i == k then n else s[i - 1];
      assert r[j] == if j < k then s[j] else if j == k then n else s[j - 1];
    }
    assert s == s[..k] + s[k..];
  }

  /** Goes up the numbers and stops at the first that is recent enough. */
  method TakeStale(listed: map<nat, set<BlockHash>>, threshold: nat)
    returns (stale: set<BlockHash>, next: map<nat, set<BlockHash>>)
    ensures forall b :: b in stale <==> exists n: nat :: n in listed && n < threshold && b in listed[n]
    ensures next == map n: nat | n in listed && n >= threshold :: listed[n]
  {
    var numbers: seq<nat> := SortNumbers(listed.Keys);
    stale, next := {}, listed;
    var i := 0;
    ghost var done: set<nat> := {};
    while i < |numbers| && numbers[i] < threshold
      invariant 0 <= i <= |numbers| && forall j :: 0 <= j < |numbers| ==> (numbers[j] in done <==> j < i)
      invariant forall n :: n in done ==> n in listed && n < threshold
      invariant next == listed - done
      invariant forall b :: b in stale <==> exists n :: n in done && n in listed && b in listed[n]
    {
      var n := numbers[i];
      assert n in numbers;
      stale, next, done := stale + next[n], next - {n}, done + {n};
      i := i + 1;
    }
    forall n: nat | n in listed ensures n in done <==> n < threshold {
      assert n in numbers;
    }
  }

  method DropBlocks(layers0: Layers, blockOf0: map<DiffHash, BlockHash>, peersOf0: map<DiffHash, set<Peer>>,
                    stale: set<BlockHash>)
    returns (layers: Layers, blockOf: map<DiffHash, BlockHash>, peersOf: map<DiffHash, set<Peer>>, gone: set<DiffHash>)
    ensures forall d :: d in gone <==> exists b :: b in stale && Has(layers0, b, d)
    ensures layers == layers0 - stale && blockOf == blockOf0 - gone && peersOf == peersOf0 - gone
  {
    layers, blockOf, peersOf, gone := layers0, blockOf0, peersOf0, {};
    var rest := stale;
    while rest != {}
      invariant rest <= stale && layers == layers0 - (stale - rest)
      invariant blockOf == blockOf0 - gone && peersOf == peersOf0 - gone
      invariant forall d :: d in gone <==> exists b :: b in stale - rest && Has(layers0, b, d)
      decreases rest
    {
      var b :| b in rest;
      assert stale - (rest - {b}) == stale - rest + {b};
      if b in layers {
        gone := gone + layers[b].Keys;
        blockOf := blockOf - layers[b].Keys;
        peersOf := peersOf - layers[b].Keys;
      }
      assert b in layers <==> b in layers0;
      layers := layers - {b};
      rest := rest - {b};
    }
  }

  /** Takes one diff from every peer; a peer left with none goes. */
  method TakeFromEach(diffsOf: map<Peer, set<DiffHash>>, d: DiffHash) returns (next: map<Peer, set<DiffHash>>)
    requires forall p :: p in diffsOf ==> diffsOf[p] != {}
    ensures next == PeersWithout(diffsOf, {d})
  {
    next := diffsOf;
    var rest := diffsOf.Keys;
    while rest != {}
      invariant rest <= diffsOf.Keys
      invariant forall p :: p in next <==> p in diffsOf && (p in rest || !(diffsOf[p] <= {d}))
      invariant forall p :: p in next ==> next[p] == if p in rest then diffsOf[p] else diffsOf[p] - {d}
      decreases rest
    {
      var p :| p in rest;
      var diffs := next[p] - {d};
      next := if diffs == {} then next - {p} else next[p := diffs];
      assert diffs == {} <==> diffsOf[p] <= {d};
      rest := rest - {p};
    }
  }

  method TakeFromPeers(diffsOf: map<Peer, set<DiffHash>>, gone: set<DiffHash>) returns (next: map<Peer, set<DiffHash>>)
    requires forall p :: p in diffsOf ==> diffsOf[p] != {}
    ensures next == PeersWithout(diffsOf, gone)
  {
    hide PeersWithout;
    next := diffsOf;
    PeersWithoutNone(diffsOf);
    var rest := gone;
    assert gone - rest == {};
    while rest != {}
      invariant rest <= gone && next == PeersWithout(diffsOf, gone - rest)
      decreases rest
    {
      var d :| d in rest;
      PeersWithoutHas(diffsOf, gone - rest);
      PeersWithoutOne(diffsOf, gone - rest, d);
      assert gone - (rest - {d}) == gone - rest + {d};
      next := TakeFromEach(next, d);
      rest := rest - {d};
    }
    assert gone - {} == gone;
  }

  lemma PeersWithoutNone(diffsOf: map<Peer, set<DiffHash>>)
    requires forall p :: p in diffsOf ==> diffsOf[p] != {}
    ensures PeersWithout(diffsOf, {}) == diffsOf
  {
    assert forall p :: p in diffsOf ==> diffsOf[p] - {} == diffsOf[p];
  }

  lemma PeersWithoutOne(diffsOf: map<Peer, set<DiffHash>>, gone: set<DiffHash>, d: DiffHash)
    ensures PeersWithout(PeersWithout(diffsOf, gone), {d}) == PeersWithout(diffsOf, gone + {d})
  {
    forall p | p in diffsOf
      ensures diffsOf[p] - gone - {d} == diffsOf[p] - (gone + {d})
      ensures diffsOf[p] <= gone + {d} <==> diffsOf[p] - gone <= {d}
    {
    }
  }

  /** Dropping the stale blocks whole is dropping their diffs. */
  lemma BlocksAreDiffs(s: Store, stale: set<BlockHash>, gone: set<DiffHash>)
    requires BlocksAgree(s) && forall d :: d in gone <==> exists b :: b in stale && Has(s.layers, b, d)
    ensures LayersWithout(s.layers, gone) == s.layers - stale
  {
    forall b | b in s.layers
      ensures s.layers[b].Keys <= gone <==> b in stale
      ensures b !in stale ==> s.layers[b] - gone == s.layers[b]
    {
      assert s.layers[b].Keys != {};
      var d :| d in s.layers[b];
      assert Has(s.layers, b, d);
      forall e | e in s.layers[b] ensures e in gone <==> b in stale {
        assert Has(s.layers, b, e);
      }
    }
  }

  /** In a consistent store the peers that delivered a diff share no diff with others. */
  lemma PeersAreDiffs(s: Store, pids: set<Peer>, gone: set<DiffHash>)
    requires PeersAgree(s) && forall d :: d in gone <==> exists p :: p in pids && Owns(s.diffsOf, p, d)
    ensures PeersWithout(s.diffsOf, gone) == s.diffsOf - pids && gone <= s.blockOf.Keys
  {
    hide PeersAgree;
    assert gone <= s.blockOf.Keys by {
      forall d | d in gone ensures d in s.blockOf {
        var p :| p in pids && Owns(s.diffsOf, p, d);
        OwnerIsOne(s, d, p, p);
      }
    }
    forall p | p in s.diffsOf
      ensures s.diffsOf[p] <= gone <==> p in pids
      ensures p !in pids ==> s.diffsOf[p] - gone == s.diffsOf[p]
    {
      OwnsSome(s, p);
      forall e | e in s.diffsOf[p] ensures e in gone <==> p in pids {
        assert Owns(s.diffsOf, p, e);
        if e in gone {
          var q :| q in pids && Owns(s.diffsOf, q, e);
          OwnerIsOne(s, e, p, q);
        }
      }
    }
  }

  lemma OwnerIsOne(s: Store, d: DiffHash, p: Peer, q: Peer)
    requires PeersAgree(s) && Owns(s.diffsOf, p, d) && Owns(s.diffsOf, q, d)
    ensures p == q && d in s.blockOf
  {
    assert s.peersOf[d] == {p} && s.peersOf[d] == {q};
    assert p in {q};
  }

  lemma OwnsSome(s: Store, p: Peer)
    requires PeersAgree(s) && p in s.diffsOf
    ensures s.diffsOf[p] != {}
  {
  }

  // ---------------------------------------------------------------- arrival

  function DiffsOf(s: Store, p: Peer): set<DiffHash> {
    if p in s.diffsOf then s.diffsOf[p] else {}
  }

  /** A layer not held yet, kept for the peer that sent it. */
  ghost function Added(s: Store, layer: DiffLayer, d: DiffHash, p: Peer): Store {
    var inner := if layer.block in s.layers then s.layers[layer.block] else map[];
    var at := if layer.number in s.listed then s.listed[layer.number] else {};
    var peers := if d in s.peersOf then s.peersOf[d] else {};
    Store(s.layers[layer.block := inner[d := layer]], s.blockOf[d := layer.block], s.peersOf[d := peers + {p}],
          s.listed[layer.number := at + {layer.block}], s.diffsOf[p := DiffsOf(s, p) + {d}])
  }

  lemma AddKeeps(s: Store, layer: DiffLayer, d: DiffHash, p: Peer)
    requires Consistent(s) && d !in s.blockOf && |DiffsOf(s, p)| <= MAX_DIFF_LIMIT
    ensures Consistent(Added(s, layer, d, p))
  {
    AddKeepsBlocks(s, layer, d, p);
    AddKeepsPeers(s, layer, d, p);
  }

  lemma AddKeepsBlocks(s: Store, layer: DiffLayer, d: DiffHash, p: Peer)
    requires BlocksAgree(s) && d !in s.blockOf
    ensures BlocksAgree(Added(s, layer, d, p))
  {
    var t := Added(s, layer, d, p);
    forall e | e in t.blockOf ensures Has(t.layers, t.blockOf[e], e) {
      assert e != d ==> Has(s.layers, s.blockOf[e], e);
    }
    forall b, e | Has(t.layers, b, e)
      ensures e in t.blockOf && t.blockOf[e] == b && t.layers[b][e].block == b && Lists(t.listed, t.layers[b][e])
    {
      assert e != d ==> Has(s.layers, b, e);
      assert e == d && b != layer.block ==> Has(s.layers, b, d);
    }
    forall b | b in t.layers ensures t.layers[b] != map[] {
      assert b == layer.block ==> d in t.layers[b];
    }
  }

  lemma AddKeepsPeers(s: Store, layer: DiffLayer, d: DiffHash, p: Peer)
    requires PeersAgree(s) && d !in s.blockOf && |DiffsOf(s, p)| <= MAX_DIFF_LIMIT
    ensures PeersAgree(Added(s, layer, d, p))
  {
    hide Added, Owns;
    var t := Added(s, layer, d, p);
    AddedPeers(s, layer, d, p);
    forall e, q | e in t.peersOf && q in t.peersOf[e] ensures Owns(t.diffsOf, q, e) {
      assert e != d ==> Owns(s.diffsOf, q, e);
    }
    forall e, q | Owns(t.diffsOf, q, e) ensures e in t.peersOf && t.peersOf[e] == {q} {
      assert e != d ==> Owns(s.diffsOf, q, e);
      assert e == d && q != p ==> Owns(s.diffsOf, q, d);
    }
    assert t.peersOf.Keys == t.blockOf.Keys;
    forall q | q in t.diffsOf ensures t.diffsOf[q] != {} && |t.diffsOf[q]| <= MAX_DIFF_LIMIT + 1 {
      assert q == p ==> d in t.diffsOf[q];
      assert q != p ==> t.diffsOf[q] == s.diffsOf[q];
    }
    forall e | e in t.peersOf ensures t.peersOf[e] != {} {
      assert e == d ==> p in t.peersOf[e];
    }
  }

  lemma AddedPeers(s: Store, layer: DiffLayer, d: DiffHash, p: Peer)
    requires d !in s.peersOf
    ensures var t := Added(s, layer, d, p);
      && t.peersOf == s.peersOf[d := {p}] && t.blockOf == s.blockOf[d := layer.block]
      && t.diffsOf == s.diffsOf[p := DiffsOf(s, p) + {d}]
      && (forall e, q :: Owns(t.diffsOf, q, e) <==> Owns(s.diffsOf, q, e) || (e == d && q == p))
  {
    var none: set<Peer> := {};
    assert none + {p} == {p};
  }

  // ---------------------------------------------------------------- the store

  class DiffLayerStore {
    var layers: Layers
    var blockOf: map<DiffHash, BlockHash>
    var peersOf: map<DiffHash, set<Peer>>
    var listed: map<nat, set<BlockHash>>
    var diffsOf: map<Peer, set<DiffHash>>

    ghost function View(): Store
      reads this
    {
      Store(layers, blockOf, peersOf, listed, diffsOf)
    }

    constructor ()
      ensures Consistent(View()) && blockOf == map[]
    {
      layers, blockOf, peersOf, listed, diffsOf := map[], map[], map[], map[], map[];
    }

    /** `HandleDiffLayer`, where a diff hash held already stands for the same block. */
    method HandleDiffLayer(layer: DiffLayer, hash: Option<DiffHash>, pid: Peer, fulfilled: bool, height: nat)
      returns (ok: bool)
      requires Consistent(View())
      requires hash.Some? && hash.value in blockOf ==> blockOf[hash.value] == layer.block
      modifies this
      ensures Consistent(View())
      ensures ok <==>
        hash.Some? || layer.number > height + MAX_DIFF_QUEUE_DIST || height > layer.number + MAX_DIFF_FORK_DIST
      ensures View() ==
        if hash.Some? && hash.value !in old(blockOf)
           && layer.number <= height + MAX_DIFF_QUEUE_DIST && height <= layer.number + MAX_DIFF_FORK_DIST
           && |DiffsOf(old(View()), pid)| <= (if fulfilled then MAX_DIFF_LIMIT else MAX_DIFF_LIMIT_FOR_BROADCAST)
        then Added(old(View()), layer, hash.value, pid) else old(View())
    {
      hide Consistent;
      ok := true;
      if layer.number > height && layer.number - height > MAX_DIFF_QUEUE_DIST {
        return;
      }
      if layer.number < height && height - layer.number > MAX_DIFF_FORK_DIST {
        return;
      }
      if hash == None {
        return false;
      }
      var d := hash.value;
      if d in blockOf && blockOf[d] == layer.block {
        return;
      }
      ghost var s := View();
      var own := if pid in diffsOf then diffsOf[pid] else {};
      if !fulfilled && |own| > MAX_DIFF_LIMIT_FOR_BROADCAST {
        return;
      }
      if |own| > MAX_DIFF_LIMIT {
        return;
      }
      NotOwned(s, d, pid);
      if d in own {
        return;
      }
      AddKeeps(s, layer, d, pid);
      diffsOf := diffsOf[pid := own + {d}];
      var at := if layer.number in listed then listed[layer.number] else {};
      listed := listed[layer.number := at + {layer.block}];
      var peers := if d in peersOf then peersOf[d] else {};
      peersOf := peersOf[d := peers + {pid}];
      var inner := if layer.block in layers then layers[layer.block] else map[];
      layers := layers[layer.block := inner[d := layer]];
      blockOf := blockOf[d := layer.block];
    }

    /** `removeDiffLayers`: all layers of the peer that sent an invalid one go, and no others. */
    method RemoveDiffLayers(diffHash: DiffHash)
      requires Consistent(View())
      modifies this
      ensures Consistent(View())
      ensures diffHash !in old(blockOf) ==> View() == old(View())
      ensures forall p :: old(Owns(diffsOf, p, diffHash)) ==>
        View() == Dropped(old(View()), old(diffsOf)[p], old(listed))
    {
      hide BlocksAgree, PeersAgree, LayersWithout, PeersWithout;
      ghost var s := View();
      var pids := if diffHash in peersOf then peersOf[diffHash] else {};
      var invalid, peers := CollectInvalid(pids, diffsOf);
      RemoveFacts(s, diffHash, pids, invalid);
      diffsOf := peers;
      layers, blockOf, peersOf := DeleteDiffs(layers, blockOf, peersOf, invalid);
    }

    /**
     `pruneDiffLayer`.  The bound is computed on 64 bits: from height 11 on no
     layer older than 11 blocks stays, and below that height only one numbered
     within 11 of 2^64 could.
     */
    method PruneDiffLayer(height: nat)
      requires Consistent(View()) && height < TWO_64
      modifies this
      ensures Consistent(View())
      ensures height >= MAX_DIFF_FORK_DIST ==>
        forall b, d :: Has(layers, b, d) ==> layers[b][d].number >= height - MAX_DIFF_FORK_DIST
      ensures height < MAX_DIFF_FORK_DIST ==>
        forall b, d :: Has(layers, b, d) ==> layers[b][d].number >= TWO_64 + height - MAX_DIFF_FORK_DIST
      ensures forall b, d :: Has(layers, b, d) <==> old(Has(layers, b, d)) && !Stale(old(listed), height, b)
      ensures forall b, d :: Has(layers, b, d) ==> layers[b][d] == old(layers)[b][d]
    {
      hide BlocksAgree, PeersAgree, LayersWithout, PeersWithout;
      ghost var s := View();
      var threshold := Threshold(height);
      var stale, next := TakeStale(listed, threshold);
      listed := next;
      var gone;
      layers, blockOf, peersOf, gone := DropBlocks(layers, blockOf, peersOf, stale);
      PruneFacts(s, threshold, stale, gone, next);
      diffsOf := TakeFromPeers(diffsOf, gone);
    }
  }

  /** The height minus the fork distance, on 64 bits. */
  function Threshold(height: nat): (t: nat)
    requires height < TWO_64
  {
    (height - MAX_DIFF_FORK_DIST) % TWO_64
  }

  /** A block is listed under a number below the bound. */
  ghost predicate Stale(listed: map<nat, set<BlockHash>>, height: nat, b: BlockHash)
    requires height < TWO_64
  {
    exists n: nat :: n in listed && n < Threshold(height) && b in listed[n]
  }

  lemma NotOwned(s: Store, d: DiffHash, p: Peer)
    requires Consistent(s) && d !in s.blockOf
    ensures d !in DiffsOf(s, p)
  {
    assert d in DiffsOf(s, p) ==> Owns(s.diffsOf, p, d);
  }

  lemma RemoveFacts(s: Store, diffHash: DiffHash, pids: set<Peer>, invalid: set<DiffHash>)
    requires Consistent(s) && pids == (if diffHash in s.peersOf then s.peersOf[diffHash] else {})
    requires forall d :: d in invalid <==> exists p :: p in pids && Owns(s.diffsOf, p, d)
    ensures invalid <= s.blockOf.Keys && s.diffsOf - pids == PeersWithout(s.diffsOf, invalid)
    ensures forall b, d :: Has(s.layers, b, d) ==> d in s.blockOf && s.blockOf[d] == b
    ensures forall b :: b in s.layers ==> s.layers[b] != map[]
    ensures Consistent(Dropped(s, invalid, s.listed))
    ensures diffHash !in s.blockOf ==> Dropped(s, invalid, s.listed) == s
    ensures forall p :: Owns(s.diffsOf, p, diffHash) ==> invalid == s.diffsOf[p]
  {
    hide LayersWithout, PeersWithout, BlocksAgree, PeersAgree;
    PeersAreDiffs(s, pids, invalid);
    BlockFacts(s);
    KeysAgree(s);
    DropKeeps(s, invalid, s.listed);
    if diffHash !in s.blockOf {
      LayersWithoutNone(s.layers);
      PeersWithoutNone(s.diffsOf);
      assert invalid == {};
    }
    forall p | Owns(s.diffsOf, p, diffHash) ensures invalid == s.diffsOf[p] {
      SoleOwner(s, p, diffHash);
      assert pids == {p};
      assert forall d :: d in invalid <==> Owns(s.diffsOf, p, d);
    }
  }

  lemma SoleOwner(s: Store, p: Peer, d: DiffHash)
    requires PeersAgree(s) && Owns(s.diffsOf, p, d)
    ensures d in s.peersOf && s.peersOf[d] == {p}
  {
  }

  lemma KeysAgree(s: Store)
    requires PeersAgree(s)
    ensures s.peersOf.Keys == s.blockOf.Keys && forall p :: p in s.diffsOf ==> s.diffsOf[p] != {}
  {
  }

  lemma BlockFacts(s: Store)
    requires BlocksAgree(s)
    ensures forall b, d :: Has(s.layers, b, d) ==>
      d in s.blockOf && s.blockOf[d] == b && Lists(s.listed, s.layers[b][d])
    ensures forall b :: b in s.layers ==> s.layers[b] != map[]
  {
  }

  lemma PruneFacts(s: Store, threshold: nat, stale: set<BlockHash>, gone: set<DiffHash>, next: map<nat, set<BlockHash>>)
    requires Consistent(s)
    requires forall b :: b in stale <==> exists n: nat :: n in s.listed && n < threshold && b in s.listed[n]
    requires next == map n: nat | n in s.listed && n >= threshold :: s.listed[n]
    requires forall d :: d in gone <==> exists b :: b in stale && Has(s.layers, b, d)
    ensures LayersWithout(s.layers, gone) == s.layers - stale
    ensures Consistent(Dropped(s, gone, next))
    ensures forall b, d :: Has(s.layers, b, d) && b !in stale ==> s.layers[b][d].number >= threshold
    ensures forall p :: p in s.diffsOf ==> s.diffsOf[p] != {}
  {
    hide LayersWithout, PeersWithout;
    BlocksAreDiffs(s, stale, gone);
    forall b, d | Has(s.layers, b, d) && b !in stale ensures s.layers[b][d].number >= threshold {
      assert Lists(s.listed, s.layers[b][d]);
    }
    forall b, d | Has(s.layers, b, d) && d !in gone ensures Lists(next, s.layers[b][d]) {
      assert b !in stale && Lists(s.listed, s.layers[b][d]);
    }
    DropKeeps(s, gone, next);
  }
}
