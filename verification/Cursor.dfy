/** addrHistory (core/bbolt_store.go): the reverse scan of the address bucket with a byte-ordered
    cursor, one block's rows buffered at a time, and the block itself read when a row is empty. */
module Cursor {
  import opened Types
  import opened Ledger
  import opened Validation
  import opened Identity
  import opened Store
  import opened BlockStore
  import opened Encoding
  import opened History

  function Bytes(k: AddrKey): (b: Text)
    ensures |b| == |k.addr| + KEY_TAIL
  {
    KeyBytes(k.addr, k.height, k.idx)
  }

  /** The bucket's keys in cursor order. */
  ghost predicate InOrder(ks: seq<AddrKey>, keys: set<AddrKey>) {
    && (forall k :: k in keys <==> k in ks)
    && forall i, j :: 0 <= i < j < |ks| ==> Less(Bytes(ks[i]), Bytes(ks[j]))
  }

  /** Addresses are 44 characters, and no position reaches the all-ones seek key. */
  ghost predicate Uniform(ks: seq<AddrKey>) {
    forall i :: 0 <= i < |ks| ==> UniformKey(ks[i])
  }

  predicate UniformKey(k: AddrKey) {
    ValidAddr(k.addr) && k.height < Power(8) - 1 && Fits32(k.idx)
  }

  function Upper(a: Text): Text {
    a + seq(KEY_TAIL, _ => 255 as byte)
  }

  predicate HasPrefix(k: Text, p: Text) {
    |p| <= |k| && k[..|p|] == p
  }

  /** The loop's guard: long enough for the query and the positions behind it, and it starts with
      the query. */
  predicate Matches(k: Text, a: Text) {
    |k| >= |a| + KEY_TAIL && HasPrefix(k, a)
  }

  /** No key of another address passes the guard. */
  ghost predicate Plain(ks: seq<AddrKey>, a: Text) {
    forall i :: 0 <= i < |ks| ==> PlainKey(ks[i], a)
  }

  predicate PlainKey(k: AddrKey, a: Text) {
    Matches(Bytes(k), a) ==> k.addr == a
  }

  lemma {:induction false} PrefixBetween(a: Text, x: Text, k: Text, y: Text)
    requires Less(a + x, k) && Less(k, a + y) && |k| >= |a|
    ensures HasPrefix(k, a)
  {
    if |a| > 0 {
      assert (a + x)[1..] == a[1..] + x && (a + y)[1..] == a[1..] + y;
      PrefixBetween(a[1..], x, k[1..], y);
      assert k[..|a|] == [k[0]] + k[1..][..|a| - 1];
    }
  }

  lemma {:induction false} OwnMatches(k: AddrKey)
    ensures Matches(Bytes(k), k.addr)
  {
    assert Bytes(k)[..|k.addr|] == k.addr;
  }

  /** A query as long as an address or longer is always answered from its own keys, a shorter one
      exactly when no stored address begins with it. */
  lemma {:induction false} PlainExact(ks: seq<AddrKey>, a: Text)
    requires Uniform(ks)
    ensures Plain(ks, a) <==> |a| >= ADDR_LEN || forall i :: 0 <= i < |ks| ==> !HasPrefix(ks[i].addr, a)
  {
    hide Power, KeyBytes;
    forall i | 0 <= i < |ks| ensures PlainKey(ks[i], a) <==> |a| >= ADDR_LEN || !HasPrefix(ks[i].addr, a) {
      assert UniformKey(ks[i]);
      KeyGuard(ks[i], a);
    }
    hide PlainKey, Bytes, HasPrefix;
  }

  lemma {:induction false} KeyGuard(k: AddrKey, a: Text)
    requires |k.addr| == ADDR_LEN
    ensures Matches(Bytes(k), a) <==> |a| <= ADDR_LEN && HasPrefix(k.addr, a)
    ensures |a| == ADDR_LEN ==> (HasPrefix(k.addr, a) <==> k.addr == a)
    ensures |a| < ADDR_LEN ==> k.addr != a
  {
    if |a| <= ADDR_LEN {
      assert Bytes(k)[..|a|] == k.addr[..|a|];
    }
    if |a| == ADDR_LEN {
      assert k.addr[..|a|] == k.addr;
    }
  }

  /** What happens otherwise: the cursor stops at another address's key and takes it for one of the
      query's, though nothing touches the query. */
  lemma {:induction false} ShortQueryStrays(ks: seq<AddrKey>, keys: set<AddrKey>, blocks: seq<Block>, a: Text, i: nat,
      p: nat)
    requires InOrder(ks, keys) && Uniform(ks) && Lists(keys, blocks, a)
    requires i < |ks| && |a| < ADDR_LEN && HasPrefix(ks[i].addr, a)
    requires p <= |ks| && (p < |ks| ==> !Less(Bytes(ks[p]), Upper(a))) && (p > 0 ==> Less(Bytes(ks[p - 1]), Upper(a)))
    ensures p > 0 && Matches(Bytes(ks[p - 1]), a) && ks[p - 1].addr != a && Oldest(blocks, a) == []
  {
    assert UniformKey(ks[i]);
    StrangerBelow(ks[i], a);
    hide Less, Bytes, Oldest, Upper, Power, ValidAddr;
    NoneAbove(ks, Upper(a), p);
    assert i < p;
    var k := ks[p - 1];
    assert UniformKey(k) && (i == p - 1 || Less(Bytes(ks[i]), Bytes(k)));
    KeyGuard(ks[i], a);
    StrangerMatches(ks[i], k, a);
    forall j | 0 <= j < |ks| ensures ks[j].addr != a {
      assert UniformKey(ks[j]);
      KeyGuard(ks[j], a);
    }
    Untouched(ks, keys, blocks, a);
  }

  /** An address without a key is touched by nothing. */
  lemma {:induction false} Untouched(ks: seq<AddrKey>, keys: set<AddrKey>, blocks: seq<Block>, a: Text)
    requires InOrder(ks, keys) && Lists(keys, blocks, a) && forall j :: 0 <= j < |ks| ==> ks[j].addr != a
    ensures Oldest(blocks, a) == []
  {
    hide Less, Bytes, Oldest;
    var s := Oldest(blocks, a);
    forall r: HistRef ensures r !in s {
      assert AddrKey(a, r.bi, r.ti) !in ks;
    }
    OldestSorted(blocks, a);
    SortedSame(s, []);
  }

  lemma {:induction false} StrangerBelow(k: AddrKey, a: Text)
    requires ValidAddr(k.addr) && |a| < ADDR_LEN && HasPrefix(k.addr, a)
    ensures Less(Bytes(k), Upper(a))
  {
    var rest := k.addr[|a|..] + (BigEndian(k.height, 8) + BigEndian(k.idx, 4));
    var ones := seq(KEY_TAIL, _ => 255 as byte);
    assert Bytes(k) == a + rest;
    assert rest[0] == k.addr[|a|];
    assert |a| < 4 ==> k.addr[|a|] == k.addr[..4][|a|];
    assert rest[0] < 255 == ones[0];
    LessAfter(a, rest, ones);
  }

  lemma {:induction false} StrangerMatches(own: AddrKey, k: AddrKey, a: Text)
    requires UniformKey(own) && UniformKey(k) && |a| < ADDR_LEN && HasPrefix(own.addr, a)
    requires k == own || Less(Bytes(own), Bytes(k))
    requires Less(Bytes(k), Upper(a))
    ensures Matches(Bytes(k), a) && k.addr != a
  {
    KeyGuard(own, a);
    KeyGuard(k, a);
    hide Less, Power;
    if k != own {
      assert Bytes(own) == a + Bytes(own)[|a|..];
      PrefixBetween(a, Bytes(own)[|a|..], Bytes(k), seq(KEY_TAIL, _ => 255 as byte));
    }
  }

  lemma {:induction false} OwnBelowUpper(k: AddrKey)
    requires UniformKey(k)
    ensures Less(Bytes(k), Upper(k.addr))
  {
    hide Power;
    KeyBelowUpper(k.addr, k.height, k.idx);
  }

  // ------------------------------------------- the rows of one address are contiguous

  function RefsOf(ks: seq<AddrKey>): (s: seq<HistRef>)
    ensures |s| == |ks|
  {
    seq(|ks|, i requires 0 <= i < |ks| => HistRef(ks[i].height, ks[i].idx))
  }

  predicate Before(x: HistRef, y: HistRef) {
    x.bi < y.bi || (x.bi == y.bi && x.ti < y.ti)
  }

  ghost predicate Sorted(rs: seq<HistRef>) {
    forall i, j :: 0 <= i < j < |rs| ==> Before(rs[i], rs[j])
  }

  /** Two strictly ordered listings of the same references are equal. */
  lemma {:induction false} SortedSame(xs: seq<HistRef>, ys: seq<HistRef>)
    requires Sorted(xs) && Sorted(ys) && forall r :: r in xs <==> r in ys
    ensures xs == ys
  {
    assert |xs| > 0 ==> xs[|xs| - 1] in xs;
    assert |ys| > 0 ==> ys[|ys| - 1] in ys;
    if |xs| > 0 && |ys| > 0 {
      var m, n := |xs| - 1, |ys| - 1;
      assert xs[m] == ys[n] by {
        var i :| 0 <= i < |ys| && ys[i] == xs[m];
        var j :| 0 <= j < |xs| && xs[j] == ys[n];
        assert i == n || Before(ys[i], ys[n]);
        assert j == m || Before(xs[j], xs[m]);
      }
      SameWithoutLast(xs, ys, xs[..m], ys[..n]);
      SortedSame(xs[..m], ys[..n]);
      assert xs == xs[..m] + [xs[m]] && ys == ys[..n] + [ys[n]];
    }
  }

  lemma {:induction false} SameWithoutLast(xs: seq<HistRef>, ys: seq<HistRef>, s: seq<HistRef>, t: seq<HistRef>)
    requires Sorted(xs) && Sorted(ys) && (forall r :: r in xs <==> r in ys)
    requires |xs| > 0 && |ys| > 0 && xs[|xs| - 1] == ys[|ys| - 1]
    requires s == xs[..|xs| - 1] && t == ys[..|ys| - 1]
    ensures forall r :: r in s <==> r in t
  {
    forall r | r in s ensures r in t {
      var i :| 0 <= i < |s| && s[i] == r;
      assert Before(xs[i], xs[|s|]) && r in xs;
      var j :| 0 <= j <= |t| && ys[j] == r;
    }
    forall r | r in t ensures r in s {
      var i :| 0 <= i < |t| && t[i] == r;
      assert Before(ys[i], ys[|t|]) && r in ys;
      var j :| 0 <= j <= |s| && xs[j] == r;
    }
  }

  lemma {:induction false} BlockRefsSorted(b: Block, bi: nat, n: nat, a: Text)
    requires n <= |b.txs|
    ensures Sorted(BlockRefs(b, bi, n, a))
  {
    if n > 0 {
      BlockRefsSorted(b, bi, n - 1, a);
      BlockRefsAt(b, bi, n - 1, a);
      hide Touched;
      var s := BlockRefs(b, bi, n - 1, a);
      forall i | 0 <= i < |s| ensures Before(s[i], HistRef(bi, n - 1)) {
        assert s[i] in s;
      }
    }
  }

  lemma {:induction false} OldestSorted(blocks: seq<Block>, a: Text)
    ensures Sorted(Oldest(blocks, a))
  {
    if |blocks| > 0 {
      var n := |blocks| - 1;
      OldestSorted(blocks[..n], a);
      OldestAt(blocks[..n], a);
      BlockRefsSorted(blocks[n], n, |blocks[n].txs|, a);
      BlockRefsAt(blocks[n], n, |blocks[n].txs|, a);
      var s, t := Oldest(blocks[..n], a), BlockRefs(blocks[n], n, |blocks[n].txs|, a);
      hide Touched, BlockRefs, Oldest;
      forall i, j | 0 <= i < |s| && 0 <= j < |t| ensures Before(s[i], t[j]) {
        assert s[i] in s && t[j] in t;
      }
    }
  }

  lemma {:induction false} SegmentSorted(ks: seq<AddrKey>, a: Text, lo: nat, p: nat)
    requires lo <= p <= |ks| && Uniform(ks)
    requires forall i, j :: 0 <= i < j < |ks| ==> Less(Bytes(ks[i]), Bytes(ks[j]))
    requires forall i :: lo <= i < p ==> ks[i].addr == a
    ensures Sorted(RefsOf(ks[lo..p]))
  {
    hide Less, Power;
    var s := RefsOf(ks[lo..p]);
    forall i, j | 0 <= i < j < |s| ensures Before(s[i], s[j]) {
      var x, y := ks[lo + i], ks[lo + j];
      assert UniformKey(x) && UniformKey(y) && Less(Bytes(x), Bytes(y));
      KeyOrder(a, x.height, x.idx, y.height, y.idx);
    }
  }

  /** What the bucket of an exact store says about an address: its keys are the scan's. */
  ghost predicate Lists(keys: set<AddrKey>, blocks: seq<Block>, a: Text) {
    forall k: AddrKey :: k.addr == a ==> (k in keys <==> HistRef(k.height, k.idx) in Oldest(blocks, a))
  }

  /** Walking down from the seek position: the keys of the address come first, without a gap, and
      read backwards they are the address's index. */
  lemma {:induction false} Segment(ks: seq<AddrKey>, keys: set<AddrKey>, blocks: seq<Block>, a: Text, p: nat, lo: nat)
    requires InOrder(ks, keys) && Uniform(ks) && Lists(keys, blocks, a)
    requires lo <= p <= |ks| && (forall i :: p <= i < |ks| ==> !Less(Bytes(ks[i]), Upper(a)))
    requires p > 0 ==> Less(Bytes(ks[p - 1]), Upper(a))
    requires (forall i :: lo <= i < p ==> ks[i].addr == a) && (lo > 0 ==> ks[lo - 1].addr != a)
    ensures RefsOf(ks[lo..p]) == Oldest(blocks, a)
  {
    hide Less, Bytes, Oldest, Upper, UniformKey;
    OldestSorted(blocks, a);
    SegmentSorted(ks, a, lo, p);
    forall i | 0 <= i < |ks| && ks[i].addr == a ensures lo <= i < p {
      OwnInside(ks, a, p, lo, i);
    }
    var s := RefsOf(ks[lo..p]);
    forall r: HistRef ensures r in s <==> r in Oldest(blocks, a) {
      var k := AddrKey(a, r.bi, r.ti);
      if r in s {
        var i :| 0 <= i < |s| && s[i] == r;
        assert ks[lo + i] == k && k in ks;
      }
      if r in Oldest(blocks, a) {
        assert k in ks;
        var i :| 0 <= i < |ks| && ks[i] == k;
        assert s[i - lo] == r;
      }
    }
    SortedSame(s, Oldest(blocks, a));
  }

  lemma {:induction false} OwnInside(ks: seq<AddrKey>, a: Text, p: nat, lo: nat, i: nat)
    requires forall i, j :: 0 <= i < j < |ks| ==> Less(Bytes(ks[i]), Bytes(ks[j]))
    requires Uniform(ks) && lo <= p <= |ks| && i < |ks| && ks[i].addr == a
    requires forall i :: p <= i < |ks| ==> !Less(Bytes(ks[i]), Upper(a))
    requires p > 0 ==> Less(Bytes(ks[p - 1]), Upper(a))
    requires lo > 0 ==> ks[lo - 1].addr != a
    ensures lo <= i < p
  {
    hide Less, Power;
    assert UniformKey(ks[i]);
    OwnBelowUpper(ks[i]);
    if i < lo - 1 {
      var k := ks[lo - 1];
      assert UniformKey(k);
      assert Less(Bytes(ks[i]), Bytes(k));
      if lo < p {
        LessTrans(Bytes(k), Bytes(ks[p - 1]), Upper(a));
      }
      PrefixBetween(a, BigEndian(ks[i].height, 8) + BigEndian(ks[i].idx, 4), Bytes(k), seq(KEY_TAIL, _ => 255 as byte));
      KeyGuard(k, a);
    }
  }

  // -------------------------------------------------------------------- the scan

  /** The bytes stored under an address key: nothing, or the encoded row. */
  function CellBytes(c: Cell): Text {
    match c
    case NoRow => []
    case Row(item) => EncodeRow(DataOf(item))
  }

  function DataOf(item: HistoryItem): RowData {
    RowData(item.time, item.amount, item.fee, HexText(item.txId, ID_DIGITS), item.from, item.to)
  }

  /** The row survives its encoding: one length byte per string, 64 digits for the id. */
  predicate RowFits(item: HistoryItem) {
    item.txId < Sixteens(ID_DIGITS) && |item.from| < 256 && |item.to| < 256
  }

  lemma {:induction false} RowBack(item: HistoryItem)
    requires RowFits(item)
    ensures DecodeRow(EncodeRow(DataOf(item))) == Some(DataOf(item)) && HexNumber(DataOf(item).txId) == item.txId
  {
    RowRoundTrip(DataOf(item));
    HexBack(item.txId, ID_DIGITS);
    hide EncodeRow, DecodeRow, HexText, HexNumber;
  }

  datatype Entry = Entry(idx: nat, val: Text)

  /** `run`, collected newest first, holds the rows `asc`: each empty, or the row of its
      transaction. */
  ghost predicate RunOf(cr: Crypto, blocks: seq<Block>, run: seq<Entry>, runH: nat, asc: seq<HistRef>) {
    && |run| == |asc| && AllIn(blocks, asc)
    && forall i :: 0 <= i < |asc| ==> EntryOf(cr, blocks, run[|run| - 1 - i], runH, asc[i])
  }

  ghost predicate EntryOf(cr: Crypto, blocks: seq<Block>, e: Entry, runH: nat, r: HistRef) {
    InChainAt(blocks, r) && r == HistRef(runH, e.idx) && RowBytes(e.val, ItemAt(cr, blocks, r))
  }

  ghost predicate RowBytes(v: Text, item: HistoryItem) {
    RowFits(item) && (v == [] || v == EncodeRow(DataOf(item)))
  }

  /** One row: decoded, or read from its block when the stored value is empty. */
  method RowOrBlock(cr: Crypto, stored: map<nat, Block>, e: Entry, runH: u64, ghost blocks: seq<Block>,
      ghost r: HistRef)
    returns (found: bool, item: HistoryItem)
    requires EntryOf(cr, blocks, e, runH, r) && Heights(blocks)
    requires runH in stored && stored[runH] == blocks[r.bi]
    ensures found && item == ItemAt(cr, blocks, r)
  {
    hide EncodeRow, DecodeRow, DataOf, HexNumber;
    RowRead(e.val, ItemAt(cr, blocks, r));
    item := HistoryItem(0, 0, 0, [], [], 0, 0);
    match DecodeRow(e.val) {
      case Some(d) =>
        found, item := true, HistoryItem(HexNumber(d.txId), runH, d.time, d.from, d.to, d.amount, d.fee);
      case None =>
        found := runH in stored && e.idx < |stored[runH].txs|;
        if found {
          item := ItemOf(cr, stored[runH], e.idx);
        }
    }
  }

  /** Decoding the stored bytes gives the row, or nothing. */
  lemma {:induction false} RowRead(v: Text, item: HistoryItem)
    requires RowBytes(v, item)
    ensures DecodeRow(v) == None ||
      (exists d :: DecodeRow(v) == Some(d) && item == HistoryItem(HexNumber(d.txId), item.height, d.time, d.from, d.to, d.amount, d.fee))
  {
    if v == [] {
      ShortRowsFallBack(v);
    } else {
      RowBack(item);
    }
  }

  /** flush: emit the buffered rows of one block in ascending order. */
  method Flush(cr: Crypto, stored: map<nat, Block>, run: seq<Entry>, runH: u64, limit: nat, offset: nat,
      skipped0: nat,
               out0: seq<HistoryItem>, ghost blocks: seq<Block>, ghost asc: seq<HistRef>, ghost before: seq<HistRef>)
    returns (more: bool, skipped: nat, out: seq<HistoryItem>, ghost seen: seq<HistRef>)
    requires RunOf(cr, blocks, run, runH, asc) && Heights(blocks)
    requires |run| > 0 ==> runH < |blocks| && runH in stored && stored[runH] == blocks[runH]
    requires Paged(cr, blocks, before, offset, limit, skipped0, out0)
    ensures Paged(cr, blocks, seen, offset, limit, skipped, out)
    ensures seen <= before + asc && if more then seen == before + asc else |out| >= limit
  {
    hide PageOf, Paged, Items, InChainAt, EntryOf, Heights, ItemAt;
    skipped, out, seen := skipped0, out0, before;
    assert before + asc[..0] == before;
    if |run| == 0 {
      return true, skipped, out, seen;
    }
    var i := |run| - 1;
    while i >= 0
      invariant -1 <= i < |run|
      invariant seen == before + asc[..|run| - 1 - i] && Paged(cr, blocks, seen, offset, limit, skipped, out)
    {
      ghost var j := |run| - 1 - i;
      ghost var r := asc[j];
      assert InChainAt(blocks, r) && EntryOf(cr, blocks, run[i], runH, r);
      assert before + asc[..j + 1] == before + asc[..j] + [r];
      if skipped < offset {
        Skip(cr, blocks, seen, r, offset, limit, skipped, out);
        skipped := skipped + 1;
      } else {
        if |out| >= limit {
          return false, skipped, out, seen;
        }
        Emit(cr, blocks, seen, r, offset, limit, skipped, out);
        EntryBlock(cr, blocks, run[i], runH, r);
        var found, item := RowOrBlock(cr, stored, run[i], runH, blocks, r);
        if found {
          out := out + [item];
        }
      }
      seen := seen + [r];
      i := i - 1;
    }
    more := |out| < limit;
  }

  lemma {:induction false} EntryBlock(cr: Crypto, blocks: seq<Block>, e: Entry, runH: nat, r: HistRef)
    requires EntryOf(cr, blocks, e, runH, r)
    ensures r.bi == runH
  {
  }

  /** cursor.Seek: the first key that is not below `target`. */
  method Seek(ks: seq<AddrKey>, target: Text) returns (p: nat)
    ensures p <= |ks| && (p < |ks| ==> !Less(Bytes(ks[p]), target))
    ensures p > 0 ==> Less(Bytes(ks[p - 1]), target)
  {
    p := 0;
    while p < |ks| && Less(Bytes(ks[p]), target)
      invariant p <= |ks| && (p > 0 ==> Less(Bytes(ks[p - 1]), target))
    {
      p := p + 1;
    }
  }

  lemma {:induction false} NoneAbove(ks: seq<AddrKey>, target: Text, p: nat)
    requires p <= |ks| && (p < |ks| ==> !Less(Bytes(ks[p]), target))
    requires forall i, j :: 0 <= i < j < |ks| ==> Less(Bytes(ks[i]), Bytes(ks[j]))
    ensures forall i :: p <= i < |ks| ==> !Less(Bytes(ks[i]), target)
  {
    hide Less, Bytes;
    forall i | p <= i < |ks| ensures !Less(Bytes(ks[i]), target) {
      if i > p && Less(Bytes(ks[i]), target) {
        LessTrans(Bytes(ks[p]), Bytes(ks[i]), target);
      }
    }
  }

  /** How far down from `p` the keys belong to `a`. */
  ghost function Bottom(ks: seq<AddrKey>, a: Text, p: nat): (lo: nat)
    requires p <= |ks|
    ensures lo <= p && (forall i :: lo <= i < p ==> ks[i].addr == a) && (lo > 0 ==> ks[lo - 1].addr != a)
  {
    if p == 0 || ks[p - 1].addr != a then p else Bottom(ks, a, p - 1)
  }

  /** The rows of the address bucket, of an exact store or one still being backfilled. */
  ghost predicate Serves(cr: Crypto, d: Buckets, ks: seq<AddrKey>, blocks: seq<Block>, a: Text) {
    && InOrder(ks, d.addrTx.Keys) && Uniform(ks) && Plain(ks, a) && Heights(blocks)
    && Lists(d.addrTx.Keys, blocks, a)
    && AllStored(d, blocks) && AllCells(cr, d, blocks)
  }

  ghost predicate AllStored(d: Buckets, blocks: seq<Block>) {
    forall h :: 0 <= h < |blocks| ==> h in d.blocks && d.blocks[h] == blocks[h]
  }

  ghost predicate AllCells(cr: Crypto, d: Buckets, blocks: seq<Block>) {
    forall k :: k in d.addrTx ==> CellOk(cr, d.addrTx[k], blocks, HistRef(k.height, k.idx))
  }

  ghost predicate CellOk(cr: Crypto, c: Cell, blocks: seq<Block>, r: HistRef) {
    InChainAt(blocks, r) && RowFits(ItemAt(cr, blocks, r)) && (c == NoRow || c == Row(ItemAt(cr, blocks, r)))
  }

  /** The entry under the cursor is the next older reference of the address. */
  lemma {:induction false} EntryAt(cr: Crypto, d: Buckets, ks: seq<AddrKey>, blocks: seq<Block>, a: Text, lo: nat,
      p: nat, pos: nat, refs: seq<HistRef>)
    requires Serves(cr, d, ks, blocks, a) && lo <= pos < p <= |ks| && refs == RefsOf(ks[lo..p])
    requires forall i :: lo <= i < p ==> ks[i].addr == a
    ensures ks[pos] in d.addrTx && ks[pos].height < Power(8)
    ensures refs[pos - lo] == HistRef(ks[pos].height, ks[pos].idx)
    ensures EntryOf(cr, blocks, Entry(ks[pos].idx, CellBytes(d.addrTx[ks[pos]])), ks[pos].height, refs[pos - lo])
    ensures |Bytes(ks[pos])| == |a| + 12
    ensures var b, w := Bytes(ks[pos]), |a|;
      Matches(b, a) && Number(b[w..w + 8]) == ks[pos].height && Number(b[w + 8..w + 12]) == ks[pos].idx
  {
    hide Lists, Power, Heights;
    assert UniformKey(ks[pos]);
    assert ks[pos] in ks;
    var k := ks[pos];
    hide Uniform, Plain, InOrder, EncodeRow, DataOf, Matches, AllStored;
    OwnMatches(k);
    assert CellOk(cr, d.addrTx[k], blocks, HistRef(k.height, k.idx));
    HeightFits(k);
    KeyBack(a, k.height, k.idx);
  }

  lemma {:induction false} HeightFits(k: AddrKey)
    requires UniformKey(k)
    ensures Fits64(k.height) && Fits32(k.idx) && k.height < Power(8)
  {
  }

  lemma {:induction false} RunGrows(cr: Crypto, blocks: seq<Block>, run: seq<Entry>, runH: nat, asc: seq<HistRef>,
      e: Entry, h: nat, r: HistRef)
    requires RunOf(cr, blocks, run, runH, asc) && EntryOf(cr, blocks, e, h, r) && (|run| > 0 ==> h == runH)
    ensures RunOf(cr, blocks, run + [e], h, [r] + asc)
  {
    hide EntryOf;
    var grown, all := run + [e], [r] + asc;
    forall i | 0 <= i < |all| ensures EntryOf(cr, blocks, grown[|grown| - 1 - i], h, all[i]) {
      if i > 0 {
        assert EntryOf(cr, blocks, run[|run| - 1 - (i - 1)], runH, asc[i - 1]);
      }
    }
    assert InChainAt(blocks, r) by {
      EntryIn(cr, blocks, e, h, r);
    }
  }

  lemma {:induction false} EntryIn(cr: Crypto, blocks: seq<Block>, e: Entry, h: nat, r: HistRef)
    requires EntryOf(cr, blocks, e, h, r)
    ensures InChainAt(blocks, r) && r.bi == h && h < |blocks|
  {
  }

  /** The buffered rows are the last run of the references not yet flushed. */
  lemma {:induction false} Buffered(cr: Crypto, blocks: seq<Block>, run: seq<Entry>, runH: nat, refs: seq<HistRef>,
      k: nat, q: nat)
    requires k < q <= |refs| && RunOf(cr, blocks, run, runH, refs[k..q]) && (k > 0 ==> refs[k - 1].bi != runH)
    ensures Runs(refs[..q]) == refs[k..q] + Runs(refs[..k])
  {
    hide Runs;
    forall i | k <= i < q ensures refs[i].bi == runH {
      assert EntryOf(cr, blocks, run[|run| - 1 - (i - k)], runH, refs[k..q][i - k]);
    }
    NextRun(refs, q - 1, k);
  }

  lemma {:induction false} NoRun(cr: Crypto, blocks: seq<Block>, runH: nat)
    ensures RunOf(cr, blocks, [], runH, [])
  {
  }

  /** The buffer holds the rows of refs[k..q], all of block `runH`. */
  ghost predicate Holding(cr: Crypto, d: Buckets, blocks: seq<Block>, run: seq<Entry>, runH: nat,
      refs: seq<HistRef>, k: nat, q: nat) {
    && k <= q <= |refs| && |run| == q - k && RunOf(cr, blocks, run, runH, refs[k..q])
    && (|run| > 0 ==> runH < |blocks| && runH in d.blocks && d.blocks[runH] == blocks[runH])
  }

  lemma {:induction false} NotHolding(cr: Crypto, d: Buckets, blocks: seq<Block>, runH: nat, refs: seq<HistRef>,
      k: nat)
    requires k <= |refs|
    ensures Holding(cr, d, blocks, [], runH, refs, k, k)
  {
    NoRun(cr, blocks, runH);
    assert refs[k..k] == [];
  }

  lemma {:induction false} HoldingRun(cr: Crypto, d: Buckets, blocks: seq<Block>, run: seq<Entry>, runH: nat,
      refs: seq<HistRef>, k: nat, q: nat)
    requires Holding(cr, d, blocks, run, runH, refs, k, q) && |run| > 0 && (k > 0 ==> refs[k - 1].bi != runH)
    ensures k < q <= |refs| && RunOf(cr, blocks, run, runH, refs[k..q])
    ensures runH < |blocks| && runH in d.blocks && d.blocks[runH] == blocks[runH]
    ensures Runs(refs[..q]) == refs[k..q] + Runs(refs[..k])
  {
    hide RunOf, Runs;
    Buffered(cr, blocks, run, runH, refs, k, q);
  }

  lemma {:induction false} HoldingNone(cr: Crypto, d: Buckets, blocks: seq<Block>, run: seq<Entry>, runH: nat,
      refs: seq<HistRef>, k: nat, q: nat)
    requires Holding(cr, d, blocks, run, runH, refs, k, q) && |run| == 0
    ensures k == q <= |refs| && RunOf(cr, blocks, run, runH, refs[k..q]) && refs[k..q] == []
  {
  }

  /** Reading one more entry of the same block. */
  lemma {:induction false} Collect(cr: Crypto, d: Buckets, ks: seq<AddrKey>, blocks: seq<Block>, a: Text,
      run: seq<Entry>, runH: nat,
                                   refs: seq<HistRef>, k: nat, q: nat, h: nat)
    requires |run| > 0 && 0 < k && Holding(cr, d, blocks, run[..|run| - 1], runH, refs, k, q) && (|run| > 1 ==> h == runH)
    requires EntryOf(cr, blocks, run[|run| - 1], h, refs[k - 1]) && Serves(cr, d, ks, blocks, a)
    ensures Holding(cr, d, blocks, run, h, refs, k - 1, q)
  {
    hide RunOf, Serves, EntryOf;
    var before, e := run[..|run| - 1], run[|run| - 1];
    RunGrows(cr, blocks, before, runH, refs[k..q], e, h, refs[k - 1]);
    EntryIn(cr, blocks, e, h, refs[k - 1]);
    StoredAt(cr, d, ks, blocks, a, h);
    assert refs[k - 1..q] == [refs[k - 1]] + refs[k..q];
    assert run == before + [e];
  }

  lemma {:induction false} StoredAt(cr: Crypto, d: Buckets, ks: seq<AddrKey>, blocks: seq<Block>, a: Text, h: nat)
    requires Serves(cr, d, ks, blocks, a) && h < |blocks|
    ensures h in d.blocks && d.blocks[h] == blocks[h] && Heights(blocks)
  {
  }

  /** Above the bottom of the segment the guard holds; below it, it does not. */
  lemma {:induction false} Inside(ks: seq<AddrKey>, a: Text, p: nat, lo: nat, pos: nat)
    requires pos < p <= |ks| && lo == Bottom(ks, a, p) && lo <= pos + 1 && Plain(ks, a) && Matches(Bytes(ks[pos]), a)
    ensures lo <= pos
  {
    hide Bytes, Matches;
    assert PlainKey(ks[pos], a);
  }

  lemma {:induction false} Outside(ks: seq<AddrKey>, a: Text, p: nat, lo: nat, pos: int)
    requires -1 <= pos < p <= |ks| && lo == Bottom(ks, a, p) && lo - 1 <= pos
    requires pos >= 0 ==> !Matches(Bytes(ks[pos]), a)
    ensures pos == lo - 1
  {
    hide Bytes, Matches;
    if pos >= 0 {
      OwnMatches(ks[pos]);
    }
  }

  /** The address's segment below the seek position. */
  lemma {:induction false} Listed(cr: Crypto, d: Buckets, ks: seq<AddrKey>, blocks: seq<Block>, a: Text, p: nat)
    returns (lo: nat, refs: seq<HistRef>, total: seq<HistRef>)
    requires Serves(cr, d, ks, blocks, a)
    requires p <= |ks| && (p < |ks| ==> !Less(Bytes(ks[p]), Upper(a))) && (p > 0 ==> Less(Bytes(ks[p - 1]), Upper(a)))
    ensures lo == Bottom(ks, a, p) && lo <= p && refs == RefsOf(ks[lo..p]) && total == Scan(blocks, a) == Runs(refs)
    ensures (forall i :: lo <= i < p ==> ks[i].addr == a) && Plain(ks, a) && Heights(blocks)
  {
    hide Less, Bytes, Upper, Oldest, Scan, Runs, UniformKey, Heights, Lists, CellOk;
    lo, total := Bottom(ks, a, p), Scan(blocks, a);
    refs := RefsOf(ks[lo..p]);
    NoneAbove(ks, Upper(a), p);
    Segment(ks, d.addrTx.Keys, blocks, a, p, lo);
    RunsOfOldest(blocks, a);
  }

  /** Flushing the buffered rows leaves the references below them. */
  method FlushHeld(cr: Crypto, d: Buckets, run: seq<Entry>, runH: u64, limit: nat, offset: nat, skipped0: nat,
      out0: seq<HistoryItem>,
                   ghost blocks: seq<Block>, ghost refs: seq<HistRef>, ghost k: nat, ghost q: nat, ghost before: seq<HistRef>, ghost total: seq<HistRef>)
    returns (more: bool, skipped: nat, out: seq<HistoryItem>, ghost seen: seq<HistRef>)
    requires Holding(cr, d, blocks, run, runH, refs, k, q) && Heights(blocks) && q <= |refs|
    requires Paged(cr, blocks, before, offset, limit, skipped0, out0) && total == before + Runs(refs[..q])
    requires |run| > 0 && k > 0 ==> k <= |refs| && refs[k - 1].bi != runH
    ensures Paged(cr, blocks, seen, offset, limit, skipped, out)
    ensures k <= |refs| && seen <= total && if more then total == seen + Runs(refs[..k]) else |out| >= limit
  {
    hide *;
    if |run| > 0 {
      HoldingRun(cr, d, blocks, run, runH, refs, k, q);
    } else {
      HoldingNone(cr, d, blocks, run, runH, refs, k, q);
      assert [] + Runs(refs[..k]) == Runs(refs[..k]);
    }
    more, skipped, out, seen := Flush(cr, d.blocks, run, runH, limit, offset, skipped0, out0, blocks, refs[k..q], before);
    AfterRun(before, seen, refs[k..q], Runs(refs[..k]), total);
  }

  /** addrHistory returns exactly the requested page, whatever mixture of materialised and empty
      rows is stored. */
  method AddrHistory(cr: Crypto, d: Buckets, ks: seq<AddrKey>, a: Text, limit: nat, from: int,
      ghost blocks: seq<Block>)
    returns (out: seq<HistoryItem>)
    requires Serves(cr, d, ks, blocks, a)
    ensures out == HistoryPage(cr, blocks, a, if from < 0 then 0 else from, limit)
  {
    hide *;
    var offset := if from < 0 then 0 else from;
    var p := Seek(ks, Upper(a));
    ghost var lo, refs, total := Listed(cr, d, ks, blocks, a, p);
    var pos, run, runH: u64, skipped, w := p - 1, [], 0, 0, |a|;
    out := [];
    ghost var seen: seq<HistRef>, q := [], |refs|;
    NoneYet(cr, blocks, offset, limit);
    assert refs[..|refs|] == refs;
    NotHolding(cr, d, blocks, 0, refs, q);
    while pos >= 0 && Matches(Bytes(ks[pos]), a)
      invariant lo - 1 <= pos < p && pos + 1 - lo <= q <= |refs|
      invariant Holding(cr, d, blocks, run, runH, refs, pos + 1 - lo, q)
      invariant seen <= total && Paged(cr, blocks, seen, offset, limit, skipped, out)
      invariant total == seen + Runs(refs[..q])
    {
      Inside(ks, a, p, lo, pos);
      EntryAt(cr, d, ks, blocks, a, lo, p, pos, refs);
      var b := Bytes(ks[pos]);
      var h, idx := Uint64(b[w..w + 8]), Number(b[w + 8..w + 12]);
      ghost var k := pos + 1 - lo;
      if |run| > 0 && h != runH {
        var more;
        more, skipped, out, seen := FlushHeld(cr, d, run, runH, limit, offset, skipped, out, blocks, refs, k, q, seen, total);
        if !more {
          PageDone(cr, blocks, seen, a, offset, limit, skipped, out);
          return;
        }
        q, run := k, [];
        NotHolding(cr, d, blocks, runH, refs, k);
      }
      run := run + [Entry(idx, CellBytes(d.addrTx[ks[pos]]))];
      Collect(cr, d, ks, blocks, a, run, runH, refs, k, q, h);
      runH := h;
      pos := pos - 1;
    }
    Outside(ks, a, p, lo, pos);
    NoRuns(refs[..0]);
    var more;
    more, skipped, out, seen := FlushHeld(cr, d, run, runH, limit, offset, skipped, out, blocks, refs, 0, q, seen, total);
    PageDone(cr, blocks, seen, a, offset, limit, skipped, out);
  }

  // ------------------------------------------------------ the store serves every chain

  lemma {:induction false} FewTxs(cr: Crypto, blocks: seq<Block>, h: nat)
    requires ChainOk(cr, blocks) && h < |blocks|
    ensures |blocks[h].txs| <= MAX_BLOCK_TXS
  {
    if h > 0 {
      assert CoreAt(cr, blocks, h);
    }
  }

  /** A block's address rows and the scan agree on what touches an address. */
  lemma {:induction false} RowsListed(cr: Crypto, full: Buckets, blocks: seq<Block>, k: AddrKey)
    requires Exact(cr, full, blocks) && Heights(blocks) && ChainOk(cr, blocks) && IdsFit(cr, blocks)
    ensures k in full.addrTx <==> HistRef(k.height, k.idx) in Oldest(blocks, k.addr)
    ensures k in full.addrTx ==> CellOk(cr, full.addrTx[k], blocks, HistRef(k.height, k.idx))
  {
    OldestAt(blocks, k.addr);
    hide Oldest, Touched, Covered, TxRowAt, ChainOk, IdsFit, RowFits;
    var r := HistRef(k.height, k.idx);
    if r in Oldest(blocks, k.addr) {
      assert ExactAt(cr, full, blocks[r.bi]) && k in AddrKeys(blocks[r.bi], |blocks[r.bi].txs|);
    }
    if k in full.addrTx {
      assert ExactAt(cr, full, blocks[k.height]);
      RowsFit(cr, blocks, r);
    }
  }

  /** Transaction ids are the 64-digit hashes their rows are written with. */
  ghost predicate IdsFit(cr: Crypto, blocks: seq<Block>) {
    forall h, i :: 0 <= h < |blocks| && 0 <= i < |blocks[h].txs| ==> cr.txId(blocks[h].txs[i]) < Sixteens(ID_DIGITS)
  }

  /** In a valid chain every transaction touches proper addresses only. */
  lemma {:induction false} ProperAddrs(cr: Crypto, blocks: seq<Block>, h: nat, i: nat)
    requires ChainOk(cr, blocks) && h < |blocks| && i < |blocks[h].txs|
    ensures ValidAddr(blocks[h].txs[i].to) && forall a :: a in Touched(blocks[h].txs[i]) ==> ValidAddr(a)
  {
    hide StateOf, HeaderOk, PowOk;
    if h > 0 {
      assert CoreAt(cr, blocks, h);
      if i > 0 {
        BodyAddrs(cr, blocks[..h], StateOf(blocks[..h]), blocks[h].txs[1..], i - 1);
      }
    }
    hide ValidAddr, ShapeOk;
  }

  lemma {:induction false} BodyAddrs(cr: Crypto, prefix: seq<Block>, st: State, txs: seq<Tx>, i: nat)
    requires BodyOk(cr, prefix, st, txs, 0) && i < |txs|
    ensures ValidAddr(txs[i].to) && txs[i].sender.Key?
    decreases |txs|
  {
    hide ValidAddr;
    if i < |txs| - 1 {
      BodyAddrs(cr, prefix, st, txs[..|txs| - 1], i);
    }
  }

  /** So every row of a valid chain survives its encoding. */
  lemma {:induction false} RowsFit(cr: Crypto, blocks: seq<Block>, r: HistRef)
    requires ChainOk(cr, blocks) && IdsFit(cr, blocks) && Heights(blocks) && InChainAt(blocks, r)
    ensures RowFits(ItemAt(cr, blocks, r))
  {
    ProperAddrs(cr, blocks, r.bi, r.ti);
    hide ChainOk, Sixteens, Heights;
  }

  /** The store of a valid chain serves the history of every query that is not a proper beginning
      of a stored address, even while some of its rows are still to be backfilled. */
  lemma {:induction false} StoreServes(cr: Crypto, d: Buckets, ks: seq<AddrKey>, blocks: seq<Block>, a: Text)
    requires Ideal(cr) && ChainOk(cr, blocks) && NoncesFit(blocks) && IdsFit(cr, blocks)
    requires Partial(d, Image(cr, blocks), 0) && InOrder(ks, d.addrTx.Keys)
    ensures |a| >= ADDR_LEN || (forall k :: k in ks ==> !HasPrefix(k.addr, a)) <==> Serves(cr, d, ks, blocks, a)
  {
    var full := Image(cr, blocks);
    assert blocks[..|blocks|] == blocks;
    ImageExact(cr, blocks, |blocks|);
    ChainHeights(cr, blocks);
    hide Image, Ideal, ChainOk, InOrder, Exact, Heights, Partial, Lists, AllStored, AllCells, Uniform, NoncesFit, IdsFit;
    hide Plain, HasPrefix;
    RowsServe(cr, d, full, blocks, a);
    KeysUniform(cr, d, full, ks, blocks);
    StoredBlocks(cr, d, full, blocks);
    PlainExact(ks, a);
  }

  lemma {:induction false} RowsServe(cr: Crypto, d: Buckets, full: Buckets, blocks: seq<Block>, a: Text)
    requires Exact(cr, full, blocks) && Heights(blocks) && Partial(d, full, 0)
    requires ChainOk(cr, blocks) && IdsFit(cr, blocks)
    ensures Lists(d.addrTx.Keys, blocks, a) && AllCells(cr, d, blocks)
  {
    hide Oldest, CellOk, Exact, Heights, ChainOk, IdsFit;
    forall k: AddrKey
      ensures k in d.addrTx <==> HistRef(k.height, k.idx) in Oldest(blocks, k.addr)
      ensures k in d.addrTx ==> CellOk(cr, d.addrTx[k], blocks, HistRef(k.height, k.idx))
    {
      RowsListed(cr, full, blocks, k);
      if k in d.addrTx {
        EmptyCellOk(cr, full.addrTx[k], blocks, HistRef(k.height, k.idx));
      }
    }
  }

  lemma {:induction false} KeysUniform(cr: Crypto, d: Buckets, full: Buckets, ks: seq<AddrKey>, blocks: seq<Block>)
    requires ChainOk(cr, blocks) && NoncesFit(blocks) && IdsFit(cr, blocks) && Exact(cr, full, blocks) && Heights(blocks)
    requires Partial(d, full, 0) && InOrder(ks, d.addrTx.Keys)
    ensures Uniform(ks)
  {
    hide ChainOk, InOrder, UniformKey, Exact, Heights, NoncesFit, IdsFit;
    forall i | 0 <= i < |ks| ensures UniformKey(ks[i]) {
      InBucket(ks, d.addrTx.Keys, i);
      KeyFits(cr, full, blocks, ks[i]);
    }
  }

  lemma {:induction false} KeyFits(cr: Crypto, full: Buckets, blocks: seq<Block>, k: AddrKey)
    requires ChainOk(cr, blocks) && NoncesFit(blocks) && IdsFit(cr, blocks) && Exact(cr, full, blocks) && Heights(blocks)
    requires k in full.addrTx
    ensures UniformKey(k)
  {
    hide ChainOk, Exact, Heights, Power, Oldest, ValidAddr, IdsFit;
    Widths();
    RowsListed(cr, full, blocks, k);
    CellIn(cr, full.addrTx[k], blocks, HistRef(k.height, k.idx));
    FewTxs(cr, blocks, k.height);
    OldestAt(blocks, k.addr);
    ProperAddrs(cr, blocks, k.height, k.idx);
  }

  lemma {:induction false} StoredBlocks(cr: Crypto, d: Buckets, full: Buckets, blocks: seq<Block>)
    requires Exact(cr, full, blocks) && Partial(d, full, 0)
    ensures AllStored(d, blocks)
  {
  }

  lemma {:induction false} EmptyCellOk(cr: Crypto, c: Cell, blocks: seq<Block>, r: HistRef)
    requires CellOk(cr, c, blocks, r)
    ensures CellOk(cr, NoRow, blocks, r)
  {
  }

  lemma {:induction false} CellIn(cr: Crypto, c: Cell, blocks: seq<Block>, r: HistRef)
    requires CellOk(cr, c, blocks, r)
    ensures InChainAt(blocks, r)
  {
  }

  lemma {:induction false} InBucket(ks: seq<AddrKey>, keys: set<AddrKey>, i: nat)
    requires InOrder(ks, keys) && i < |ks|
    ensures ks[i] in keys && ks[i] in ks
  {
  }

  // --------------------------------------------------------------- the row count

  lemma {:induction false} CountOne(m: TotalsMap, t: Tx, a: Text)
    requires !t.sender.BadKey?
    ensures TotalsFor(CountTx(m, t), a).txn == TotalsFor(m, a).txn + if a in Touched(t) then 1 else 0
  {
  }

  lemma {:induction false} CountBlock(m: TotalsMap, b: Block, n: nat, a: Text)
    requires n <= |b.txs| && forall i :: 0 <= i < |b.txs| ==> !b.txs[i].sender.BadKey?
    ensures TotalsFor(CountTxs(m, b.txs[..n]), a).txn == TotalsFor(m, a).txn + |BlockRefs(b, b.hd.height, n, a)|
  {
    if n > 0 {
      assert b.txs[..n][..n - 1] == b.txs[..n - 1];
      CountBlock(m, b, n - 1, a);
      var before, t := CountTxs(m, b.txs[..n - 1]), b.txs[n - 1];
      CountOne(before, t, a);
      hide Touched, CountTx;
      assert CountTxs(m, b.txs[..n]) == CountTx(before, t);
    }
  }

  lemma {:induction false} BodyKeys(cr: Crypto, prefix: seq<Block>, st: State, txs: seq<Tx>, minFee: u64, i: nat)
    requires BodyOk(cr, prefix, st, txs, minFee) && i < |txs|
    ensures txs[i].sender.Key?
    decreases |txs|
  {
    if i < |txs| - 1 {
      BodyKeys(cr, prefix, st, txs[..|txs| - 1], minFee, i);
    }
  }

  lemma {:induction false} KeysDecode(cr: Crypto, blocks: seq<Block>, h: nat)
    requires ChainOk(cr, blocks) && h < |blocks|
    ensures forall i :: 0 <= i < |blocks[h].txs| ==> !blocks[h].txs[i].sender.BadKey?
  {
    if h > 0 {
      assert CoreAt(cr, blocks, h);
      var txs := blocks[h].txs;
      forall i | 0 <= i < |txs| ensures !txs[i].sender.BadKey? {
        if i > 0 {
          BodyKeys(cr, blocks[..h], StateOf(blocks[..h]), txs[1..], 0, i - 1);
        }
      }
    }
  }

  /** The incremental transaction count of an address is the length of its history. */
  lemma {:induction false} CountIsScanLength(cr: Crypto, blocks: seq<Block>, n: nat, a: Text)
    requires ChainOk(cr, blocks) && n <= |blocks|
    ensures TotalsFor(TotalsOf(blocks[..n]), a).txn == |Scan(blocks[..n], a)|
  {
    if n > 0 {
      var c, b := blocks[..n - 1], blocks[n - 1];
      assert blocks[..n][..n - 1] == c;
      CountIsScanLength(cr, blocks, n - 1, a);
      KeysDecode(cr, blocks, n - 1);
      ChainSealed(cr, blocks, n - 1);
      hide ChainOk, CountTxs, BlockRefs, Sealed;
      CountBlock(TotalsOf(c), b, |b.txs|, a);
      assert b.txs[..|b.txs|] == b.txs;
    }
  }
}
