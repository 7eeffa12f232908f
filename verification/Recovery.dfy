/** Loading the block store (core/chain.go loadBolt, core/bbolt_store.go forEachBlock): whatever
    mixture of once-current chains failed commits left on disk, loading keeps a prefix of one. */
module Recovery {
  import opened Types
  import opened Validation
  import opened Store
  import opened BlockStore

  /** The stored blocks with keys below `n`, in ascending key order. */
  function Ascending(m: map<nat, Block>, n: nat): seq<Block> {
    if n == 0 then [] else Ascending(m, n - 1) + if n - 1 in m then [m[n - 1]] else []
  }

  ghost predicate Below(m: map<nat, Block>, n: nat) {
    forall h :: h in m ==> h < n
  }

  /** forEachBlock: the cursor walk that fills c.blocks. */
  method ForEachBlock(m: map<nat, Block>) returns (stored: seq<Block>, n: nat)
    ensures Below(m, n) && stored == Ascending(m, n)
  {
    var have, tip := LastKey(m);
    n := if have then tip + 1 else 0;
    stored := [];
    var h := 0;
    while h < n
      invariant h <= n && stored == Ascending(m, h)
    {
      if h in m {
        stored := stored + [m[h]];
      }
      h := h + 1;
    }
  }

  datatype Loaded = WrongGenesis | Loaded(chain: seq<Block>, rebuild: bool)

  predicate Follows(cr: Crypto, stored: seq<Block>, i: nat)
    requires 1 <= i < |stored|
  {
    stored[i].hd.height == i && stored[i].hd.prev == Hash(cr, stored[i - 1])
  }

  /** The first position from `i` on that breaks the linkage. */
  function Break(cr: Crypto, stored: seq<Block>, i: nat): (k: nat)
    requires 1 <= i <= |stored|
    ensures i <= k <= |stored|
    decreases |stored| - i
  {
    if i == |stored| || !Follows(cr, stored, i) then i else Break(cr, stored, i + 1)
  }

  function LoadOf(cr: Crypto, stored: seq<Block>): Loaded {
    if |stored| == 0 then Loaded([Genesis(cr)], true)
    else if Hash(cr, stored[0]) != Hash(cr, Genesis(cr)) then WrongGenesis
    else var k := Break(cr, stored, 1); Loaded(stored[..k], k < |stored|)
  }

  /** loadBolt: an empty store starts at genesis; otherwise truncate at the first block that does
      not follow its predecessor. `rebuild` tells that the store is rewritten. */
  method LoadBolt(cr: Crypto, stored: seq<Block>) returns (r: Loaded)
    ensures r == LoadOf(cr, stored)
  {
    if |stored| == 0 {
      return Loaded([Genesis(cr)], true);
    }
    if Hash(cr, stored[0]) != Hash(cr, Genesis(cr)) {
      return WrongGenesis;
    }
    var i := 1;
    while i < |stored|
      invariant 1 <= i <= |stored|
      invariant Break(cr, stored, 1) == Break(cr, stored, i)
    {
      if stored[i].hd.height != i || stored[i].hd.prev != Hash(cr, stored[i - 1]) {
        return Loaded(stored[..i], true);
      }
      i := i + 1;
    }
    r := Loaded(stored[..|stored|], false);
  }

  // ------------------------------------------------------------ what is recovered

  /** Chains that have been current at some time. */
  ghost predicate AllOk(cr: Crypto, ever: set<seq<Block>>) {
    forall c :: c in ever ==> ChainOk(cr, c)
  }

  ghost predicate FromEver(b: Block, h: nat, ever: set<seq<Block>>) {
    exists c :: c in ever && h < |c| && c[h] == b
  }

  /** Every stored block is the block at its height of some chain that was once current. */
  ghost predicate Sourced(m: map<nat, Block>, ever: set<seq<Block>>) {
    forall h :: h in m ==> FromEver(m[h], h, ever)
  }

  ghost predicate PrefixOfEver(chain: seq<Block>, ever: set<seq<Block>>) {
    exists c :: c in ever && chain <= c
  }

  lemma {:induction false} SourcedKeyed(cr: Crypto, m: map<nat, Block>, ever: set<seq<Block>>)
    requires AllOk(cr, ever) && Sourced(m, ever)
    ensures Keyed(m)
  {
    hide ChainOk;
    forall h | h in m ensures m[h].hd.height == h {
      assert FromEver(m[h], h, ever);
      var c :| c in ever && h < |c| && c[h] == m[h];
      ChainSealed(cr, c, h);
    }
  }

  lemma {:induction false} AscendingAt(m: map<nat, Block>, n: nat, i: nat)
    requires Keyed(m) && i < |Ascending(m, n)|
    ensures var b := Ascending(m, n)[i]; b.hd.height in m && m[b.hd.height] == b
  {
    if i < |Ascending(m, n - 1)| {
      AscendingAt(m, n - 1, i);
    }
  }

  lemma {:induction false} AscendingFirst(m: map<nat, Block>, n: nat)
    requires 0 in m && 0 < n
    ensures |Ascending(m, n)| > 0 && Ascending(m, n)[0] == m[0]
  {
    if n > 1 {
      AscendingFirst(m, n - 1);
    }
  }

  lemma {:induction false} BreakLinks(cr: Crypto, stored: seq<Block>, i: nat, j: nat)
    requires 1 <= i <= j < |stored| && j < Break(cr, stored, i)
    ensures Follows(cr, stored, j)
    decreases |stored| - i
  {
    if i < j {
      BreakLinks(cr, stored, i + 1, j);
    }
  }

  /** The loaded blocks sit at their own keys. */
  lemma {:induction false} LoadedAt(cr: Crypto, m: map<nat, Block>, n: nat, i: nat)
    requires Keyed(m) && 0 in m && Below(m, n)
    requires var s := Ascending(m, n); |s| > 0 && i < Break(cr, s, 1)
    ensures i in m && m[i] == Ascending(m, n)[i]
  {
    AscendingFirst(m, n);
    if i > 0 {
      BreakLinks(cr, Ascending(m, n), 1, i);
      AscendingAt(m, n, i);
    }
  }

  lemma {:induction false} SealedFrom(cr: Crypto, b: Block, h: nat, ever: set<seq<Block>>)
    requires AllOk(cr, ever) && FromEver(b, h, ever)
    ensures Sealed(cr, b)
  {
    hide ChainOk, Sealed;
    var c :| c in ever && h < |c| && c[h] == b;
    ChainSealed(cr, c, h);
  }

  lemma {:induction false} LoadedLinked(cr: Crypto, stored: seq<Block>, k: nat)
    requires Ideal(cr) && |stored| > 0 && Hash(cr, stored[0]) == Hash(cr, Genesis(cr)) && k == Break(cr, stored, 1)
    ensures Linked(cr, stored[..k])
  {
    hide Break, Genesis;
    forall i | 1 <= i < k ensures LinkAt(cr, stored[..k], i) {
      BreakLinks(cr, stored, 1, i);
    }
  }

  /** A linked prefix of the store whose last block is block `k-1` of a valid chain is that
      chain's prefix: the hash fixes the headers below, and the sealed headers fix the bodies. */
  lemma {:induction false} SameAsChain(cr: Crypto, xs: seq<Block>, c: seq<Block>, ever: set<seq<Block>>)
    requires Ideal(cr) && Linked(cr, xs) && ChainOk(cr, c) && |xs| <= |c| && xs[|xs| - 1] == c[|xs| - 1]
    requires AllOk(cr, ever) && forall i :: 0 <= i < |xs| ==> FromEver(xs[i], i, ever)
    ensures xs <= c
  {
    ChainLinked(cr, c);
    hide ChainOk, Ideal, Sealed, FromEver, AllOk, LinkAt, Hash, Genesis;
    forall i: nat | i < |xs| ensures xs[i] == c[i] {
      HashFixesHistory(cr, xs, c, |xs|, i);
      SealedFrom(cr, xs[i], i, ever);
      ChainSealed(cr, c, i);
      SealedUnique(cr, xs[i], c[i]);
    }
  }

  /** Loading never meets a wrong genesis, and yields a prefix of a chain that was once current. */
  lemma {:induction false} LoadRecovers(cr: Crypto, m: map<nat, Block>, n: nat, ever: set<seq<Block>>)
    requires Ideal(cr) && AllOk(cr, ever) && Sourced(m, ever) && Below(m, n)
    requires m == map[] || 0 in m
    requires [Genesis(cr)] in ever
    ensures var r := LoadOf(cr, Ascending(m, n));
      r.Loaded? && |r.chain| > 0 && PrefixOfEver(r.chain, ever)
  {
    hide ChainOk, Ideal;
    var s := Ascending(m, n);
    if m == map[] {
      NothingAscending(m, n);
      assert [Genesis(cr)] <= [Genesis(cr)];
    } else {
      SourcedKeyed(cr, m, ever);
      AscendingFirst(m, n);
      GenesisFirst(cr, m[0], ever);
      KeptIsPrefix(cr, m, n, ever);
      hide Break, Ascending, Sourced, Genesis, Hash, Below, AllOk, PrefixOfEver;
    }
  }

  lemma {:induction false} KeptIsPrefix(cr: Crypto, m: map<nat, Block>, n: nat, ever: set<seq<Block>>)
    requires Ideal(cr) && AllOk(cr, ever) && Sourced(m, ever) && Below(m, n) && Keyed(m) && 0 in m
    requires var s := Ascending(m, n); |s| > 0 && s[0] == Genesis(cr)
    ensures var s := Ascending(m, n); PrefixOfEver(s[..Break(cr, s, 1)], ever)
  {
    var s := Ascending(m, n);
    var k := Break(cr, s, 1);
    hide Break, Ascending, Sourced, Genesis, Hash, Below, AllOk, ChainOk, Ideal;
    LoadedFromEver(cr, m, n, ever);
    LoadedLinked(cr, s, k);
    assert FromEver(s[k - 1], k - 1, ever);
    var c :| c in ever && k - 1 < |c| && c[k - 1] == s[k - 1];
    SourcedOk(cr, c, ever);
    SameAsChain(cr, s[..k], c, ever);
  }

  lemma {:induction false} SourcedOk(cr: Crypto, c: seq<Block>, ever: set<seq<Block>>)
    requires AllOk(cr, ever) && c in ever
    ensures ChainOk(cr, c)
  {
    hide ChainOk;
  }

  /** `b` stands in some valid chain. */
  ghost predicate WasValid(cr: Crypto, b: Block) {
    exists c: seq<Block>, h: nat :: h < |c| && c[h] == b && ChainOk(cr, c)
  }

  /** What a node has stored can be loaded: the kept chain is valid, and every block read, kept or
      not, was once part of a valid chain. */
  lemma {:induction false} LoadUsable(cr: Crypto, m: map<nat, Block>, n: nat, ever: set<seq<Block>>)
    requires Ideal(cr) && AllOk(cr, ever) && Sourced(m, ever) && Below(m, n)
    requires m == map[] || 0 in m
    requires [Genesis(cr)] in ever
    ensures var r := LoadOf(cr, Ascending(m, n)); r.Loaded? && ChainOk(cr, r.chain)
    ensures forall i :: 0 <= i < |Ascending(m, n)| ==> WasValid(cr, Ascending(m, n)[i])
  {
    hide ChainOk, Ideal, LoadOf;
    LoadRecovers(cr, m, n, ever);
    var chain := LoadOf(cr, Ascending(m, n)).chain;
    var c :| c in ever && chain <= c;
    ChainOkPrefix(cr, c, |chain|);
    assert c[..|chain|] == chain;
    SourcedKeyed(cr, m, ever);
    hide Ascending, Sourced, FromEver;
    forall i: nat | i < |Ascending(m, n)| ensures WasValid(cr, Ascending(m, n)[i]) {
      AscendingAt(m, n, i);
      EverValid(cr, m, Ascending(m, n)[i].hd.height, ever);
    }
  }

  lemma {:induction false} EverValid(cr: Crypto, m: map<nat, Block>, h: nat, ever: set<seq<Block>>)
    requires AllOk(cr, ever) && Sourced(m, ever) && h in m
    ensures WasValid(cr, m[h])
  {
    hide ChainOk;
    assert FromEver(m[h], h, ever);
  }

  lemma {:induction false} LoadedFromEver(cr: Crypto, m: map<nat, Block>, n: nat, ever: set<seq<Block>>)
    requires Sourced(m, ever) && Keyed(m) && 0 in m && Below(m, n) && |Ascending(m, n)| > 0
    ensures var s := Ascending(m, n);
      forall i :: 0 <= i < Break(cr, s, 1) ==> FromEver(s[i], i, ever)
  {
    hide Ascending, FromEver;
    var s := Ascending(m, n);
    forall i: nat | i < Break(cr, s, 1) ensures FromEver(s[i], i, ever) {
      LoadedAt(cr, m, n, i);
    }
  }

  lemma {:induction false} NothingAscending(m: map<nat, Block>, n: nat)
    requires m == map[]
    ensures Ascending(m, n) == []
  {
    if n > 0 {
      NothingAscending(m, n - 1);
    }
  }

  lemma {:induction false} GenesisFirst(cr: Crypto, b: Block, ever: set<seq<Block>>)
    requires AllOk(cr, ever) && FromEver(b, 0, ever)
    ensures b == Genesis(cr)
  {
    var c :| c in ever && 0 < |c| && c[0] == b;
    assert ChainOk(cr, c);
  }

  /** Loading the exact store of a valid chain returns that chain and rewrites nothing. */
  lemma {:induction false} LoadExact(cr: Crypto, chain: seq<Block>, n: nat)
    requires ChainOk(cr, chain) && Below(Image(cr, chain).blocks, n)
    ensures LoadOf(cr, Ascending(Image(cr, chain).blocks, n)) == Loaded(chain, false)
  {
    var m := Image(cr, chain).blocks;
    ChainHeights(cr, chain);
    ChainLinked(cr, chain);
    ImageCovered(cr, chain);
    assert chain[0] == Genesis(cr);
    hide ChainOk, Image, Heights, Genesis, Hash;
    AscendingAll(m, chain, n);
    assert chain[..|chain|] == chain;
    BreakNone(cr, chain, 1);
  }

  lemma {:induction false} AscendingAll(m: map<nat, Block>, chain: seq<Block>, n: nat)
    requires forall h :: h in m <==> 0 <= h < |chain|
    requires forall h :: 0 <= h < |chain| ==> m[h] == chain[h]
    ensures Ascending(m, n) == chain[..if n <= |chain| then n else |chain|]
  {
    if n > 0 {
      AscendingAll(m, chain, n - 1);
    }
  }

  lemma {:induction false} BreakNone(cr: Crypto, chain: seq<Block>, i: nat)
    requires Linked(cr, chain) && 1 <= i <= |chain|
    ensures Break(cr, chain, i) == |chain|
    decreases |chain| - i
  {
    hide Hash;
    if i < |chain| {
      assert LinkAt(cr, chain, i);
      BreakNone(cr, chain, i + 1);
    }
  }
}
