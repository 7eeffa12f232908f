/** Median time past (core/chain.go medianTime): the middle of the last eleven block times. */
module MedianTime {
  import opened Types

  const MEDIAN_SPAN := 11

  /** The timestamps the median is taken over. */
  function Window(blocks: seq<Block>): (w: seq<u64>)
    ensures |w| == if |blocks| < MEDIAN_SPAN then |blocks| else MEDIAN_SPAN
    ensures forall i :: 0 <= i < |w| ==> w[i] == blocks[|blocks| - |w| + i].hd.time
  {
    var n := if |blocks| < MEDIAN_SPAN then |blocks| else MEDIAN_SPAN;
    seq<u64>(n, i requires 0 <= i < n => blocks[|blocks| - n + i].hd.time)
  }

  function Insert(x: u64, s: seq<u64>): (r: seq<u64>)
    ensures |r| == |s| + 1
  {
    if s == [] || x <= s[0] then [x] + s else [s[0]] + Insert(x, s[1..])
  }

  function Sort(s: seq<u64>): (r: seq<u64>)
    ensures |r| == |s|
  {
    if s == [] then [] else Insert(s[0], Sort(s[1..]))
  }

  function Median(blocks: seq<Block>): u64
    requires |blocks| > 0
  {
    Sort(Window(blocks))[|Window(blocks)| / 2]
  }

  method MedianTimeOf(blocks: seq<Block>) returns (m: u64)
    requires |blocks| > 0
    ensures m == Median(blocks)
  {
    var n := MEDIAN_SPAN;
    if |blocks| < n {
      n := |blocks|;
    }
    var times: seq<u64> := [];
    for i := |blocks| - n to |blocks|
      invariant |times| == i - (|blocks| - n)
      invariant times == Window(blocks)[..|times|]
    {
      times := times + [blocks[i].hd.time];
    }
    assert Window(blocks)[..n] == Window(blocks);
    var sorted := Sort(times);
    m := sorted[|times| / 2];
  }

  // ----------------------------------------------- ranks characterise the median

  ghost predicate Sorted(s: seq<u64>) {
    forall i, j :: 0 <= i <= j < |s| ==> s[i] <= s[j]
  }

  /** How many entries are below `v`. */
  ghost function Below(s: seq<u64>, v: int): nat {
    if s == [] then 0 else (if s[0] < v then 1 else 0) + Below(s[1..], v)
  }

  lemma {:induction false} InsertSorted(x: u64, s: seq<u64>)
    requires Sorted(s)
    ensures Sorted(Insert(x, s))
    ensures forall v :: Below(Insert(x, s), v) == Below(s, v) + if x < v then 1 else 0
    ensures forall y :: y in Insert(x, s) ==> y == x || y in s
  {
    if s == [] || x <= s[0] {
      assert ([x] + s)[1..] == s;
    } else {
      InsertSorted(x, s[1..]);
      var r := Insert(x, s[1..]);
      assert ([s[0]] + r)[1..] == r;
      assert forall y :: y in r ==> s[0] <= y;
    }
  }

  lemma {:induction false} SortRanks(s: seq<u64>)
    ensures Sorted(Sort(s))
    ensures forall v :: Below(Sort(s), v) == Below(s, v)
  {
    if s != [] {
      SortRanks(s[1..]);
      InsertSorted(s[0], Sort(s[1..]));
    }
  }

  /** Position `j` of a sorted sequence reaches `v` exactly when at most `j` entries are below `v`. */
  lemma {:induction false} SortedRank(s: seq<u64>, j: nat, v: int)
    requires Sorted(s) && j < |s|
    ensures s[j] >= v <==> Below(s, v) <= j
  {
    if s[0] >= v {
      NoneBelow(s, v);
    } else if j > 0 {
      SortedRank(s[1..], j - 1, v);
    }
  }

  lemma {:induction false} NoneBelow(s: seq<u64>, v: int)
    requires forall i :: 0 <= i < |s| ==> s[i] >= v
    ensures Below(s, v) == 0
  {
    if s != [] {
      NoneBelow(s[1..], v);
    }
  }

  lemma {:induction false} BelowAppend(s: seq<u64>, x: u64, v: int)
    ensures Below(s + [x], v) == Below(s, v) + if x < v then 1 else 0
  {
    if s == [] {
      assert s + [x] == [x];
    } else {
      BelowAppend(s[1..], x, v);
      assert (s + [x])[1..] == s[1..] + [x];
    }
  }

  /** The median is the value of middle rank: at most half the window is below it, and more
      than half is at or below it. */
  lemma {:induction false} MedianRank(blocks: seq<Block>, v: int)
    requires |blocks| > 0
    ensures Median(blocks) >= v <==> Below(Window(blocks), v) <= |Window(blocks)| / 2
  {
    var w := Window(blocks);
    SortRanks(w);
    SortedRank(Sort(w), |w| / 2, v);
  }

  /** A block later than the median cannot lower it, neither while the window still grows
      nor once it slides. */
  lemma {:induction false} MedianStep(blocks: seq<Block>, b: Block)
    requires |blocks| > 0
    requires b.hd.time > Median(blocks)
    ensures Median(blocks + [b]) >= Median(blocks)
  {
    var m := Median(blocks);
    var w := Window(blocks);
    MedianRank(blocks, m);
    MedianRank(blocks + [b], m);
    BelowAppend(w, b.hd.time, m);
    if |blocks| < MEDIAN_SPAN {
      assert Window(blocks + [b]) == w + [b.hd.time];
    } else {
      assert Window(blocks + [b]) == (w + [b.hd.time])[1..];
    }
  }

  /** Every block after the first is later than the median of the blocks before it. */
  ghost predicate TimesOk(blocks: seq<Block>) {
    forall i :: 1 <= i < |blocks| ==> blocks[i].hd.time > Median(blocks[..i])
  }

  /** Later than the median at every step, so the median never decreases. */
  lemma {:induction false} MedianMonotone(blocks: seq<Block>, i: nat, j: nat)
    requires TimesOk(blocks) && 1 <= i <= j <= |blocks|
    ensures Median(blocks[..i]) <= Median(blocks[..j])
    decreases j
  {
    hide Median;
    if i < j {
      MedianMonotone(blocks, i, j - 1);
      MedianStep(blocks[..j - 1], blocks[j - 1]);
      assert blocks[..j - 1] + [blocks[j - 1]] == blocks[..j];
    }
  }
}
