/** Epoch parameters (neuromorph/neuromorph.go DeriveParams, unm/nm_params.c): the weighted opcode
    table, and the instruction stream decoded through it. */
module Params {
  import opened Types
  import opened Words
  import opened Vm
  import VmFast

  const TABLE_SIZE := 256

  // ------------------------------------------------------------ the opcode table

  /** The weight that byte `op` of the weight hash gives to operation `op`. */
  function Weight(wh: seq<byte>, op: nat): (w: nat)
    requires |wh| == 32 && op < NUM_OPS
    ensures 1 <= w <= 8
  {
    1 + wh[op] as int % 8
  }

  function TotalWeight(wh: seq<byte>, n: nat): (t: nat)
    requires |wh| == 32 && n <= NUM_OPS
    ensures n <= t <= 8 * n
  {
    if n == 0 then 0 else TotalWeight(wh, n - 1) + Weight(wh, n - 1)
  }

  /** weights[op] * 256 / total */
  function Share(wh: seq<byte>, op: nat): nat
    requires |wh| == 32 && op < NUM_OPS
  {
    Weight(wh, op) * TABLE_SIZE / TotalWeight(wh, NUM_OPS)
  }

  /** The first slot of operation `op`; operation 15 would start at the table's end. */
  function FirstSlot(wh: seq<byte>, op: nat): int
    requires |wh| == 32 && op <= NUM_OPS
  {
    if op == 0 then 0
    else if op == NUM_OPS then TABLE_SIZE
    else FirstSlot(wh, op - 1) + Share(wh, op - 1)
  }

  lemma {:induction false} MulDiv(a: nat, b: nat)
    requires b > 0
    ensures a / b * b <= a < (a / b + 1) * b
  {
  }

  lemma {:induction false} DivAtLeast(a: nat, b: nat, q: nat)
    requires b > 0 && q * b <= a
    ensures q <= a / b
  {
    if a / b < q {
      MulDiv(a, b);
      MulOrder(a / b + 1, q, b);
    }
  }

  lemma {:induction false} ShareAtLeastTwo(wh: seq<byte>, op: nat)
    requires |wh| == 32 && op < NUM_OPS
    ensures Share(wh, op) >= 2
  {
    DivAtLeast(Weight(wh, op) * TABLE_SIZE, TotalWeight(wh, NUM_OPS), 2);
  }

  lemma {:induction false} SumOfParts(f: nat, s: nat, t: nat, x: int, y: int)
    requires f * t <= x && s * t <= y
    ensures (f + s) * t <= x + y
  {
  }

  lemma {:induction false} SlotsBelow(wh: seq<byte>, op: nat)
    requires |wh| == 32 && op < NUM_OPS
    ensures 0 <= FirstSlot(wh, op)
    ensures FirstSlot(wh, op) * TotalWeight(wh, NUM_OPS) <= TABLE_SIZE * TotalWeight(wh, op)
  {
    if op > 0 {
      SlotsBelow(wh, op - 1);
      var t, s, f := TotalWeight(wh, NUM_OPS), Share(wh, op - 1), FirstSlot(wh, op - 1);
      MulDiv(Weight(wh, op - 1) * TABLE_SIZE, t);
      hide TotalWeight, Share, FirstSlot;
      TotalStep(wh, op);
      FirstStep(wh, op);
      SumOfParts(f, s, t, TABLE_SIZE * TotalWeight(wh, op - 1), TABLE_SIZE * Weight(wh, op - 1));
    }
  }

  lemma {:induction false} TotalStep(wh: seq<byte>, op: nat)
    requires |wh| == 32 && 0 < op <= NUM_OPS
    ensures TotalWeight(wh, op) == TotalWeight(wh, op - 1) + Weight(wh, op - 1)
  {
  }

  lemma {:induction false} FirstStep(wh: seq<byte>, op: nat)
    requires |wh| == 32 && 0 < op < NUM_OPS
    ensures FirstSlot(wh, op) == FirstSlot(wh, op - 1) + Share(wh, op - 1)
  {
  }

  /** Every operation keeps at least two of the 256 slots, whatever the weights. */
  lemma {:induction false} EveryOpHasSlots(wh: seq<byte>, op: nat)
    requires |wh| == 32 && op < NUM_OPS
    ensures 0 <= FirstSlot(wh, op) && FirstSlot(wh, op + 1) - FirstSlot(wh, op) >= 2
    ensures FirstSlot(wh, op + 1) <= TABLE_SIZE
    decreases NUM_OPS - op
  {
    SlotsBelow(wh, op);
    if op < NUM_OPS - 1 {
      ShareAtLeastTwo(wh, op);
      EveryOpHasSlots(wh, op + 1);
    } else {
      var f, t := FirstSlot(wh, op), TotalWeight(wh, NUM_OPS);
      TotalStep(wh, NUM_OPS);
      if f > TABLE_SIZE - 2 {
        MulOrder(TABLE_SIZE - 1, f, t);
      }
    }
  }

  /** Slot `i` belongs to the operation whose range holds it. */
  ghost predicate TableOk(wh: seq<byte>, table: seq<nat>)
    requires |wh| == 32 && |table| == TABLE_SIZE
  {
    forall op :: 0 <= op < NUM_OPS ==> RangeOk(wh, table, op)
  }

  ghost predicate RangeOk(wh: seq<byte>, table: seq<nat>, op: nat)
    requires |wh| == 32 && |table| == TABLE_SIZE && op < NUM_OPS
  {
    0 <= FirstSlot(wh, op) <= FirstSlot(wh, op + 1) <= TABLE_SIZE
    && forall i :: FirstSlot(wh, op) <= i < FirstSlot(wh, op + 1) ==> table[i] == op
  }

  /** The table construction: the running index reaches 256 with the last operation, so the
      fill loop that follows never runs (`filled` counts its iterations). */
  method BuildTable(wh: seq<byte>) returns (table: array<nat>, ghost filled: nat)
    requires |wh| == 32
    ensures fresh(table) && table.Length == TABLE_SIZE && TableOk(wh, table[..]) && filled == 0
  {
    hide FirstSlot, TotalWeight;
    table := new nat[TABLE_SIZE](_ => 0);
    var total, k := 0, 0;
    assert TotalWeight(wh, 0) == 0 && FirstSlot(wh, 0) == 0 && FirstSlot(wh, NUM_OPS) == TABLE_SIZE by {
      Ends(wh);
    }
    while k < NUM_OPS
      invariant 0 <= k <= NUM_OPS && total == TotalWeight(wh, k)
    {
      total := total + Weight(wh, k);
      TotalStep(wh, k + 1);
      k := k + 1;
    }
    var idx, op: nat := 0, 0;
    while op < NUM_OPS
      invariant op <= NUM_OPS && idx == FirstSlot(wh, op) <= TABLE_SIZE
      invariant forall o :: 0 <= o < op ==> RangeOk(wh, table[..], o)
      invariant forall o :: 0 <= o <= op ==> FirstSlot(wh, o) <= idx
    {
      EveryOpHasSlots(wh, op);
      var n := if op == NUM_OPS - 1 then TABLE_SIZE - idx else Weight(wh, op) * TABLE_SIZE / total;
      if op < NUM_OPS - 1 {
        FirstStep(wh, op + 1);
      }
      ghost var before, start := table[..], idx;
      var j := 0;
      while j < n && idx < TABLE_SIZE
        invariant 0 <= j <= n && idx == start + j <= TABLE_SIZE
        invariant table[..start] == before[..start]
        invariant forall i :: start <= i < idx ==> table[i] == op
      {
        table[idx] := op;
        idx, j := idx + 1, j + 1;
      }
      forall o | 0 <= o < op ensures RangeOk(wh, table[..], o) {
        KeptRange(wh, before, table[..], o, start);
      }
      assert RangeOk(wh, table[..], op);
      op := op + 1;
    }
    ghost var done := table[..];
    assert done == table[..idx];
    filled := FillRest(wh, table, idx);
    assert table[..] == table[..idx] == done;
  }

  /** The loop that pads the table from slot `idx` on. */
  method FillRest(wh: seq<byte>, table: array<nat>, start: nat) returns (ghost filled: nat)
    requires |wh| == 32 && table.Length == TABLE_SIZE && start <= TABLE_SIZE
    modifies table
    ensures filled == TABLE_SIZE - start && table[..start] == old(table[..start])
  {
    var idx := start;
    filled := 0;
    while idx < TABLE_SIZE
      invariant start <= idx <= TABLE_SIZE && filled == idx - start && table[..start] == old(table[..start])
    {
      table[idx] := wh[idx % 32] as int % NUM_OPS;
      idx, filled := idx + 1, filled + 1;
    }
  }

  lemma {:induction false} Ends(wh: seq<byte>)
    requires |wh| == 32
    ensures TotalWeight(wh, 0) == 0 && FirstSlot(wh, 0) == 0 && FirstSlot(wh, NUM_OPS) == TABLE_SIZE
  {
  }

  lemma {:induction false} KeptRange(wh: seq<byte>, before: seq<nat>, after: seq<nat>, o: nat, start: nat)
    requires |wh| == 32 && |before| == TABLE_SIZE == |after| && o < NUM_OPS && start <= TABLE_SIZE
    requires RangeOk(wh, before, o) && FirstSlot(wh, o + 1) <= start && after[..start] == before[..start]
    ensures RangeOk(wh, after, o)
  {
    hide FirstSlot;
    forall i | FirstSlot(wh, o) <= i < FirstSlot(wh, o + 1) ensures after[i] == o {
      assert after[..start][i] == before[..start][i];
    }
  }

  /** The ranges cover the table, so it holds nothing but operations. */
  lemma {:induction false} TableDecodes(wh: seq<byte>, table: seq<nat>, i: nat, n: nat)
    requires |wh| == 32 && |table| == TABLE_SIZE && TableOk(wh, table)
    requires n <= NUM_OPS && i < FirstSlot(wh, n) && i < TABLE_SIZE
    ensures table[i] < NUM_OPS
    decreases n
  {
    if n > 0 {
      assert RangeOk(wh, table, n - 1);
      if i < FirstSlot(wh, n - 1) {
        TableDecodes(wh, table, i, n - 1);
      }
    }
  }

  lemma {:induction false} SlotOwner(wh: seq<byte>, i: nat, n: nat) returns (op: nat)
    requires |wh| == 32 && n <= NUM_OPS && i < FirstSlot(wh, n)
    ensures op < n && FirstSlot(wh, op) <= i < FirstSlot(wh, op + 1)
    decreases n
  {
    if i < FirstSlot(wh, n - 1) {
      op := SlotOwner(wh, i, n - 1);
    } else {
      op := n - 1;
    }
  }

  /** An operation holds one consecutive range of slots and no other slot, and, but for the last
      one, as many as its share of the weights, rounded down: its weight is one more than the low
      three bits of its byte of the hash. */
  lemma {:induction false} SlotsProportional(wh: seq<byte>, table: seq<nat>, op: nat)
    requires |wh| == 32 && |table| == TABLE_SIZE && TableOk(wh, table) && op < NUM_OPS
    ensures var lo, hi := FirstSlot(wh, op), FirstSlot(wh, op + 1);
      && forall i :: 0 <= i < 256 ==> (table[i] == op <==> lo <= i < hi)
    ensures op < 14 ==>
      var n, total := FirstSlot(wh, op + 1) - FirstSlot(wh, op), TotalWeight(wh, 15);
      n * total <= 256 * (1 + wh[op] as int % 8) < (n + 1) * total
  {
    forall i | 0 <= i < 256 ensures table[i] == op <==> FirstSlot(wh, op) <= i < FirstSlot(wh, op + 1) {
      Ends(wh);
      var o := SlotOwner(wh, i, NUM_OPS);
      hide FirstSlot;
      assert RangeOk(wh, table, o) && RangeOk(wh, table, op);
    }
    if op < 14 {
      FirstStep(wh, op + 1);
      MulDiv(Weight(wh, op) * TABLE_SIZE, TotalWeight(wh, NUM_OPS));
    }
  }

  // ------------------------------------------------------------- the other values

  lemma {:induction false} Residues(x: int, y: int, z: int)
    ensures (x - x % 385) % 385 == 0 && (y - y % 33) % 33 == 0 && (z - z % 24) % 24 == 0
  {
  }

  /** The fixed-range values DeriveParams takes from its hash. */
  method DeriveRanges(h: seq<byte>) returns (progSize: nat, loops: nat, branchShift: nat)
    requires |h| == 32
    ensures 384 <= progSize <= 768 && 32 <= loops <= 64 && branchShift < 24
    ensures (h[0] as int + 256 * h[1] as int - (progSize - 384)) % 385 == 0
    ensures (h[2] as int - (loops - 32)) % 33 == 0 && (h[3] as int - branchShift) % 24 == 0
  {
    Residues(h[0] as int + 256 * h[1] as int, h[2], h[3]);
    progSize := 384 + (h[0] as int + 256 * h[1] as int) % 385;
    loops := 32 + h[2] as int % 33;
    branchShift := h[3] as int % 24;
  }

  function Le32(b: seq<byte>): Word
    requires |b| == 4
  {
    b[0] as int + 256 * b[1] as int + 65536 * b[2] as int + 16777216 * b[3] as int
  }

  /** The stream's `i`-th group of eight bytes as an instruction. */
  function InstrAt(table: seq<nat>, stream: seq<byte>, i: nat): Instr
    requires |table| == TABLE_SIZE && 8 * i + 8 <= |stream|
  {
    Instr(table[stream[8 * i]], stream[8 * i + 1], stream[8 * i + 2], Le32(stream[8 * i + 4..8 * i + 8]))
  }

  /** An instruction keeps the bytes it was decoded from: target and source as they are, and the
      four bytes of the immediate, the lowest first. */
  lemma {:induction false} InstrBytes(table: seq<nat>, stream: seq<byte>, i: nat)
    requires |table| == TABLE_SIZE && 8 * i + 8 <= |stream|
    ensures var ins := InstrAt(table, stream, i);
      && ins.op == table[stream[8 * i]] && ins.dst == stream[8 * i + 1] && ins.src == stream[8 * i + 2]
      && ins.imm < 0x1_0000_0000
      && ins.imm % 256 == stream[8 * i + 4] && ins.imm / 256 % 256 == stream[8 * i + 5]
      && ins.imm / 65536 % 256 == stream[8 * i + 6] && ins.imm / 16777216 == stream[8 * i + 7]
  {
    var b := stream[8 * i + 4..8 * i + 8];
    assert b[0] == stream[8 * i + 4] && b[1] == stream[8 * i + 5] && b[2] == stream[8 * i + 6] && b[3] == stream[8 * i + 7];
    LowFirst(b);
    hide Le32;
  }

  lemma {:induction false} LowFirst(b: seq<byte>)
    requires |b| == 4
    ensures var x := Le32(b);
      x % 256 == b[0] && x / 256 % 256 == b[1] && x / 65536 % 256 == b[2] && x / 16777216 == b[3]
  {
    var x := Le32(b);
    var y, z := b[1] as int + 256 * b[2] as int + 65536 * b[3] as int, b[2] as int + 256 * b[3] as int;
    assert x == b[0] as int + 256 * y && x / 256 == y;
    assert x == b[0] as int + 256 * b[1] as int + 65536 * z && x / 65536 == z;
    hide Le32;
  }

  /** genProgram, from its key stream: every instruction names one of the fifteen operations, so
      the C dispatch table is never indexed out of range. */
  method GenProgram(wh: seq<byte>, table: array<nat>, stream: seq<byte>, progSize: nat) returns (prog: seq<Instr>)
    requires |wh| == 32 && table.Length == TABLE_SIZE && TableOk(wh, table[..]) && 8 * progSize <= |stream|
    ensures |prog| == progSize && VmFast.Decoded(prog)
    ensures forall i :: 0 <= i < progSize ==> prog[i] == InstrAt(table[..], stream, i)
  {
    hide TableOk;
    prog := [];
    for i := 0 to progSize
      invariant |prog| == i && VmFast.Decoded(prog)
      invariant forall j :: 0 <= j < i ==> prog[j] == InstrAt(table[..], stream, j)
    {
      var b := stream[i * 8..i * 8 + 8];
      Ends(wh);
      TableDecodes(wh, table[..], b[0], NUM_OPS);
      assert b[4..8] == stream[8 * i + 4..8 * i + 8];
      prog := prog + [Instr(table[b[0]], b[1], b[2], Le32(b[4..8]))];
    }
  }
}
