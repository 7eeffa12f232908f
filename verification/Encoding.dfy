/** The byte encodings of the store (core/bbolt_store.go): big-endian keys whose byte order is
    numeric order, and the materialised history row. */
module Encoding {
  import opened Types
  import Retarget

  // ------------------------------------------------------- big-endian numbers

  function Power(n: nat): (p: nat)
    ensures p > 0
  {
    if n == 0 then 1 else 256 * Power(n - 1)
  }

  /** The `n` low bytes of `x`, most significant first: u64be is `BigEndian(x, 8)`. */
  function BigEndian(x: nat, n: nat): (b: Text)
    ensures |b| == n
  {
    if n == 0 then [] else BigEndian(x / 256, n - 1) + [x % 256]
  }

  function Number(b: Text): nat {
    if |b| == 0 then 0 else 256 * Number(b[..|b| - 1]) + b[|b| - 1]
  }

  lemma {:induction false} NumberBack(x: nat, n: nat)
    requires x < Power(n)
    ensures Number(BigEndian(x, n)) == x
  {
    if n > 0 {
      NumberBack(x / 256, n - 1);
      assert BigEndian(x, n)[..n - 1] == BigEndian(x / 256, n - 1);
    }
  }

  lemma {:induction false} NumberBound(b: Text)
    ensures Number(b) < Power(|b|)
  {
    if |b| > 0 {
      NumberBound(b[..|b| - 1]);
    }
  }

  lemma {:induction false} Widths()
    ensures Power(8) == TWO64 && Power(4) == 0x1_0000_0000
  {
    assert Power(4) == 256 * (256 * (256 * 256));
    assert Power(8) == 256 * (256 * (256 * (256 * Power(4))));
  }

  /** binary.BigEndian.Uint64 */
  function Uint64(b: Text): (x: u64)
    requires |b| == 8
    ensures x == Number(b)
  {
    NumberBound(b);
    Widths();
    Number(b)
  }

  // ------------------------------------------------------------- byte order

  /** bytes.Compare(a, b) < 0, the order of bbolt's cursor. */
  predicate Less(a: Text, b: Text) {
    if |b| == 0 then false
    else if |a| == 0 then true
    else a[0] < b[0] || (a[0] == b[0] && Less(a[1..], b[1..]))
  }

  lemma {:induction false} LessAfter(p: Text, a: Text, b: Text)
    ensures Less(p + a, p + b) == Less(a, b)
  {
    if |p| == 0 {
      assert p + a == a && p + b == b;
    } else {
      LessAfter(p[1..], a, b);
      assert (p + a)[1..] == p[1..] + a && (p + b)[1..] == p[1..] + b;
    }
  }

  lemma {:induction false} LessThen(a: Text, b: Text, x: Text, y: Text)
    requires |a| == |b| && Less(a, b)
    ensures Less(a + x, b + y)
  {
    assert (a + x)[1..] == a[1..] + x && (b + y)[1..] == b[1..] + y;
    if a[0] == b[0] {
      LessThen(a[1..], b[1..], x, y);
    }
  }

  lemma {:induction false} LessTrans(a: Text, b: Text, c: Text)
    requires Less(a, b) && Less(b, c)
    ensures Less(a, c)
  {
    if |a| > 0 && a[0] == b[0] && b[0] == c[0] {
      LessTrans(a[1..], b[1..], c[1..]);
    }
  }

  lemma {:induction false} LessIrreflexive(a: Text)
    ensures !Less(a, a)
  {
    if |a| > 0 {
      LessIrreflexive(a[1..]);
    }
  }

  lemma {:induction false} LessTotal(a: Text, b: Text)
    requires a != b
    ensures Less(a, b) || Less(b, a)
  {
    if |a| > 0 && |b| > 0 && a[0] == b[0] {
      assert a == [a[0]] + a[1..] && b == [b[0]] + b[1..];
      LessTotal(a[1..], b[1..]);
    }
  }

  /** Numeric order is byte order. */
  lemma {:induction false} BigEndianOrder(x: nat, y: nat, n: nat)
    requires x < y < Power(n)
    ensures Less(BigEndian(x, n), BigEndian(y, n))
  {
    if n > 0 {
      var a, b := BigEndian(x / 256, n - 1), BigEndian(y / 256, n - 1);
      if x / 256 < y / 256 {
        BigEndianOrder(x / 256, y / 256, n - 1);
        LessThen(a, b, [x % 256], [y % 256]);
      } else {
        assert x / 256 == y / 256;
        LessAfter(a, [x % 256], [y % 256]);
      }
    }
  }

  // ---------------------------------------------------------------- addrTx keys

  const KEY_TAIL := 12

  /** addrTxKey: address, height in 8 bytes, index in 4. */
  function KeyBytes(addr: Text, height: nat, idx: nat): (k: Text)
    ensures |k| == |addr| + KEY_TAIL
  {
    addr + (BigEndian(height, 8) + BigEndian(idx, 4))
  }

  predicate Fits64(height: nat) { height < Power(8) }

  predicate Fits32(idx: nat) { idx < Power(4) }

  /** Within an address, keys are in (height, index) order. */
  lemma {:induction false} KeyOrder(addr: Text, h: nat, i: nat, h': nat, i': nat)
    requires Fits64(h) && Fits64(h') && Fits32(i) && Fits32(i')
    ensures Less(KeyBytes(addr, h, i), KeyBytes(addr, h', i')) <==> h < h' || (h == h' && i < i')
  {
    hide Power, BigEndian, Less;
    LessAfter(addr, BigEndian(h, 8) + BigEndian(i, 4), BigEndian(h', 8) + BigEndian(i', 4));
    TailOrder(h, i, h', i');
    TailOrder(h', i', h, i);
    if Less(KeyBytes(addr, h, i), KeyBytes(addr, h', i')) {
      LessIrreflexive(KeyBytes(addr, h, i));
      if h' < h || (h == h' && i' < i) {
        LessAfter(addr, BigEndian(h', 8) + BigEndian(i', 4), BigEndian(h, 8) + BigEndian(i, 4));
        LessTrans(KeyBytes(addr, h, i), KeyBytes(addr, h', i'), KeyBytes(addr, h, i));
      }
    }
  }

  lemma {:induction false} TailOrder(h: nat, i: nat, h': nat, i': nat)
    requires Fits64(h) && Fits64(h') && Fits32(i) && Fits32(i')
    ensures h < h' || (h == h' && i < i') ==> Less(BigEndian(h, 8) + BigEndian(i, 4), BigEndian(h', 8) + BigEndian(i', 4))
  {
    hide Power, BigEndian, Less;
    if h < h' {
      BigEndianOrder(h, h', 8);
      LessThen(BigEndian(h, 8), BigEndian(h', 8), BigEndian(i, 4), BigEndian(i', 4));
    } else if h == h' && i < i' {
      BigEndianOrder(i, i', 4);
      LessAfter(BigEndian(h, 8), BigEndian(i, 4), BigEndian(i', 4));
    }
  }

  /** Reading a key back: what addrHistory does after matching the prefix. */
  lemma {:induction false} KeyBack(addr: Text, h: nat, i: nat)
    requires Fits64(h) && Fits32(i)
    ensures var k, p := KeyBytes(addr, h, i), |addr|;
      k[..p] == addr && Number(k[p..p + 8]) == h && Number(k[p + 8..p + 12]) == i
  {
    hide Power, BigEndian, Number;
    NumberBack(h, 8);
    NumberBack(i, 4);
    var k, p := KeyBytes(addr, h, i), |addr|;
    assert k[p..p + 8] == BigEndian(h, 8);
    assert k[p + 8..p + 12] == BigEndian(i, 4);
  }

  /** The seek position of addrHistory is above every key of the address. */
  lemma {:induction false} KeyBelowUpper(addr: Text, h: nat, i: nat)
    requires Fits64(h) && Fits32(i)
    ensures Less(KeyBytes(addr, h, i), addr + seq(KEY_TAIL, _ => 255 as byte)) || (h == Power(8) - 1 && i == Power(4) - 1)
  {
    hide Power, Less;
    var top := KeyBytes(addr, Power(8) - 1, Power(4) - 1);
    AllOnes(8);
    AllOnes(4);
    assert top == addr + seq(KEY_TAIL, _ => 255 as byte);
    KeyOrder(addr, h, i, Power(8) - 1, Power(4) - 1);
  }

  lemma {:induction false} AllOnes(n: nat)
    ensures BigEndian(Power(n) - 1, n) == seq(n, _ => 255 as byte)
  {
    if n > 0 {
      AllOnes(n - 1);
      assert (Power(n) - 1) / 256 == Power(n - 1) - 1 && (Power(n) - 1) % 256 == 255;
    }
  }

  // ------------------------------------------------------------------- hex ids

  const ID_DIGITS := 64

  function Sixteens(n: nat): (p: nat)
    ensures p > 0
  {
    if n == 0 then 1 else 16 * Sixteens(n - 1)
  }

  /** The `n` low digits of `x` in lower-case hexadecimal. */
  function HexText(x: nat, n: nat): (t: Text)
    ensures |t| == n
  {
    if n == 0 then [] else HexText(x / 16, n - 1) + [if x % 16 < 10 then 48 + x % 16 else 87 + x % 16]
  }

  function HexNumber(t: Text): nat {
    if |t| == 0 then 0
    else
      var c := t[|t| - 1];
      16 * HexNumber(t[..|t| - 1]) + if 48 <= c <= 57 then c - 48 else if 97 <= c <= 102 then c - 87 else 0
  }

  lemma {:induction false} HexBack(x: nat, n: nat)
    requires x < Sixteens(n)
    ensures HexNumber(HexText(x, n)) == x
  {
    if n > 0 {
      HexBack(x / 16, n - 1);
      assert HexText(x, n)[..n - 1] == HexText(x / 16, n - 1);
    }
  }

  /** Digit `k` from the left is the one of its power of sixteen. */
  lemma {:induction false} HexDigitAt(x: nat, n: nat, k: nat)
    requires k < n
    ensures 0 <= x / Sixteens(n - 1 - k) % 16
      && HexText(x, n)[k] as char == "0123456789abcdef"[x / Sixteens(n - 1 - k) % 16]
  {
    if k == n - 1 {
      assert Sixteens(0) == 1;
      LastDigit(x);
    } else {
      HexDigitAt(x / 16, n - 1, k);
      var p := Sixteens(n - 2 - k);
      assert Sixteens(n - 1 - k) == 16 * p;
      hide Sixteens;
      DivTwice(x, p);
    }
  }

  lemma {:induction false} LastDigit(x: nat)
    ensures (if x % 16 < 10 then 48 + x % 16 else 87 + x % 16) as char == "0123456789abcdef"[x % 16]
    ensures x / 1 == x
  {
  }

  lemma {:induction false} DivTwice(x: nat, p: nat)
    requires p > 0
    ensures x / 16 / p == x / (16 * p)
  {
    var y := x / 16;
    var q := y / p;
    Retarget.DivBounds(y, p);
    assert q * (16 * p) == 16 * (q * p) && (q + 1) * (16 * p) == 16 * ((q + 1) * p);
    Retarget.DivUnique(x, 16 * p, q);
  }

  // -------------------------------------------------------------- history rows

  /** The fields of a row; the height is in the key. */
  datatype RowData = RowData(time: u64, amount: u64, fee: u64, txId: Text, from: Text, to: Text)

  datatype Option<T> = None | Some(value: T)

  /** appendLPStr: the length is truncated to one byte. */
  function PutText(s: Text): Text {
    [|s| % 256] + s
  }

  function TakeText(b: Text): Option<(Text, Text)> {
    if |b| < 1 || |b| - 1 < b[0] then None else Some((b[1..1 + b[0]], b[1 + b[0]..]))
  }

  function EncodeRow(r: RowData): Text {
    BigEndian(r.time, 8) + BigEndian(r.amount, 8) + BigEndian(r.fee, 8) + PutText(r.txId) + PutText(r.from) + PutText(r.to)
  }

  function DecodeRow(v: Text): Option<RowData> {
    if |v| < 24 then None
    else
      match TakeText(v[24..])
      case None => None
      case Some((txId, v1)) =>
        match TakeText(v1)
        case None => None
        case Some((from, v2)) =>
          match TakeText(v2)
          case None => None
          case Some((to, _)) =>
            Some(RowData(Uint64(v[..8]), Uint64(v[8..16]), Uint64(v[16..24]), txId, from, to))
  }

  lemma {:induction false} TakePut(s: Text, rest: Text)
    requires |s| < 256
    ensures TakeText(PutText(s) + rest) == Some((s, rest))
  {
    var b := PutText(s) + rest;
    assert b[1..1 + |s|] == s && b[1 + |s|..] == rest;
  }

  /** A row comes back exactly as it was written when its three strings are shorter than 256
      bytes, and only then. */
  lemma {:induction false} RowRoundTrip(r: RowData)
    ensures DecodeRow(EncodeRow(r)) == Some(r) <==> |r.txId| < 256 && |r.from| < 256 && |r.to| < 256
  {
    var v := EncodeRow(r);
    hide TakeText, PutText, BigEndian, Number, Power;
    var nums := BigEndian(r.time, 8) + BigEndian(r.amount, 8) + BigEndian(r.fee, 8);
    Widths();
    NumberBack(r.time, 8);
    NumberBack(r.amount, 8);
    NumberBack(r.fee, 8);
    assert v[..8] == BigEndian(r.time, 8) && v[8..16] == BigEndian(r.amount, 8) && v[16..24] == BigEndian(r.fee, 8);
    var after2 := PutText(r.to);
    var after1 := PutText(r.from) + after2;
    assert v[24..] == PutText(r.txId) + after1;
    assert after2 == PutText(r.to) + [];
    TextBack(r.txId, after1);
    TextBack(r.from, after2);
    TextBack(r.to, []);
  }

  /** Where the fields of a row stand: three big-endian numbers, time first, then each string
      behind a byte that holds its length, the id first. */
  lemma {:induction false} RowLayout(r: RowData)
    requires |r.txId| < 256 && |r.from| < 256 && |r.to| < 256
    ensures var v, p := EncodeRow(r), 25 + |r.txId|;
      var q := p + 1 + |r.from|;
      && |v| == q + 1 + |r.to|
      && Number(v[0..8]) == r.time && Number(v[8..16]) == r.amount && Number(v[16..24]) == r.fee
      && v[24] == |r.txId| && v[25..p] == r.txId
      && v[p] == |r.from| && v[p + 1..q] == r.from
      && v[q] == |r.to| && v[q + 1..] == r.to
  {
    hide BigEndian, Number, Power;
    Widths();
    NumberBack(r.time, 8);
    NumberBack(r.amount, 8);
    NumberBack(r.fee, 8);
    var v, p := EncodeRow(r), 25 + |r.txId|;
    var q := p + 1 + |r.from|;
    assert v[0..8] == BigEndian(r.time, 8) && v[8..16] == BigEndian(r.amount, 8) && v[16..24] == BigEndian(r.fee, 8);
    assert v[25..p] == r.txId && v[p + 1..q] == r.from && v[q + 1..] == r.to;
  }

  lemma {:induction false} TextBack(s: Text, rest: Text)
    ensures |s| < 256 ==> TakeText(PutText(s) + rest) == Some((s, rest))
    ensures |s| >= 256 ==> TakeText(PutText(s) + rest).Some? ==> TakeText(PutText(s) + rest).value.0 != s
  {
    if |s| < 256 {
      TakePut(s, rest);
    } else {
      var b := PutText(s) + rest;
      assert b[0] < 256 <= |s|;
    }
  }

  /** A missing or short value never decodes, so the reader falls back to the block. */
  lemma {:induction false} ShortRowsFallBack(v: Text)
    requires |v| < 27
    ensures DecodeRow(v) == None
  {
    if |v| >= 24 {
      var a := TakeText(v[24..]);
      if a.Some? {
        assert |a.value.1| <= |v| - 25;
        var b := TakeText(a.value.1);
        if b.Some? {
          assert |b.value.1| <= |v| - 26;
        }
      }
    }
  }
}
