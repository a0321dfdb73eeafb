// The perceptual hash: a mask of 8 x 8 cells packed into a 64-bit word, and the
// distance of two hashes, counted by clearing the lowest set bit until none is left.

/** Machine words as their bits, the least significant first. */
module Words {

  type Bits = seq<bool>

  function Zero(n: nat): (w: Bits)
    ensures |w| == n && forall i :: 0 <= i < n ==> !w[i]
  {
    seq(n, _ => false)
  }

  /** 1 << k in an n-bit word. */
  function OneAt(n: nat, k: nat): (w: Bits)
    requires k < n
    ensures |w| == n && forall i :: 0 <= i < n ==> w[i] == (i == k)
  {
    seq(n, i => i == k)
  }

  function And(v: Bits, w: Bits): (r: Bits)
    requires |v| == |w|
    ensures |r| == |v| && forall i :: 0 <= i < |r| ==> r[i] == (v[i] && w[i])
  {
    seq(|v|, i requires 0 <= i < |v| => v[i] && w[i])
  }

  function Or(v: Bits, w: Bits): (r: Bits)
    requires |v| == |w|
    ensures |r| == |v| && forall i :: 0 <= i < |r| ==> r[i] == (v[i] || w[i])
  {
    seq(|v|, i requires 0 <= i < |v| => v[i] || w[i])
  }

  function Xor(v: Bits, w: Bits): (r: Bits)
    requires |v| == |w|
    ensures |r| == |v| && forall i :: 0 <= i < |r| ==> r[i] == (v[i] != w[i])
  {
    seq(|v|, i requires 0 <= i < |v| => v[i] != w[i])
  }

  /** v - 1 with the borrow rippling up; zero wraps around to all ones. */
  function Minus1(v: Bits): (r: Bits)
    ensures |r| == |v|
  {
    if v == [] then [] else if v[0] then [false] + v[1..] else [true] + Minus1(v[1..])
  }

  function Value(v: Bits): nat { if v == [] then 0 else (if v[0] then 1 else 0) + 2 * Value(v[1..]) }

  function Pow2(n: nat): nat { if n == 0 then 1 else 2 * Pow2(n - 1) }

  /** Minus1 is subtraction modulo the word size. */
  lemma {:induction false} Minus1Subtracts(v: Bits)
    ensures Value(v) < Pow2(|v|)
    ensures Value(Minus1(v)) == if Value(v) == 0 then Pow2(|v|) - 1 else Value(v) - 1
  {
    if v != [] {
      Minus1Subtracts(v[1..]);
      assert Minus1(v)[1..] == if v[0] then v[1..] else Minus1(v[1..]);
    }
  }

  /** Set bits. */
  function Ones(v: Bits): nat { if v == [] then 0 else (if v[0] then 1 else 0) + Ones(v[1..]) }

  lemma {:induction false} NoOnes(v: Bits)
    ensures Ones(v) <= |v|
    ensures Ones(v) == 0 <==> v == Zero(|v|)
  {
    if v != [] {
      NoOnes(v[1..]);
      assert v == [v[0]] + v[1..];
      assert Zero(|v|) == [false] + Zero(|v| - 1);
    }
  }

  /** v & (v - 1) clears the lowest set bit and no other. */
  lemma {:induction false} ClearingRemovesOne(v: Bits)
    requires v != Zero(|v|)
    ensures Ones(v) > 0 && Ones(And(v, Minus1(v))) == Ones(v) - 1
  {
    if v != [] {
      var tail := v[1..];
      var w := And(v, Minus1(v));
      if v[0] {
        assert w[1..] == tail;
      } else {
        assert v == [false] + tail;
        assert tail != Zero(|tail|) by {
          assert Zero(|v|) == [false] + Zero(|tail|);
        }
        ClearingRemovesOne(tail);
        assert w[1..] == And(tail, Minus1(tail));
      }
    }
  }

  /** The sign bit: as a signed word, the smallest value there is. */
  function Smallest(n: nat): Bits
    requires n > 0
  {
    OneAt(n, n - 1)
  }

  predicate Negative(v: Bits) { v != [] && v[|v| - 1] }

  /** The sign bit is cleared last: only when no other bit is left. */
  lemma {:induction false} SignClearedLast(v: Bits)
    requires v != [] && v != Zero(|v|)
    ensures Negative(And(v, Minus1(v))) <==> Negative(v) && v != Smallest(|v|)
  {
    var tail := v[1..];
    assert v == [v[0]] + tail;
    ClearedBits(v[0], tail);
    if v[0] {
      OddSign(tail);
    } else {
      ShiftedSign(tail);
      EvenSign(tail);
      EvenSign(And(tail, Minus1(tail)));
      SignClearedLast(tail);
    }
  }

  lemma OddSign(tail: Bits)
    ensures Negative([false] + tail) <==> Negative([true] + tail) && [true] + tail != Smallest(1 + |tail|)
  {
    if tail == [] {
      assert [true] + tail == Smallest(1);
    } else {
      assert !Smallest(1 + |tail|)[0] && ([true] + tail)[0];
    }
  }

  lemma EvenSign(tail: Bits)
    requires tail != []
    ensures Negative([false] + tail) <==> Negative(tail)
  {
  }

  lemma ClearedBits(low: bool, tail: Bits)
    ensures var v := [low] + tail;
            And(v, Minus1(v)) == [false] + if low then tail else And(tail, Minus1(tail))
  {
    assert ([low] + tail)[1..] == tail;
  }

  lemma ShiftedSign(tail: Bits)
    requires [false] + tail != Zero(1 + |tail|)
    ensures tail != [] && tail != Zero(|tail|)
    ensures [false] + tail == Smallest(1 + |tail|) <==> tail == Smallest(|tail|)
  {
    assert Zero(1 + |tail|) == [false] + Zero(|tail|);
    if tail != [] {
      assert Smallest(1 + |tail|) == [false] + Smallest(|tail|);
      assert tail == ([false] + tail)[1..];
    }
  }
}

module PHash {
  import opened Words

  const CELLS := 64

  /** mMask: the nested loops meet it row by row. */
  type Mask = m: seq<seq<bool>> | |m| == 8 && forall i :: 0 <= i < 8 ==> |m[i]| == 8
    witness seq(8, _ => seq(8, _ => false))

  function Flat(rows: seq<seq<bool>>): seq<bool> {
    if rows == [] then [] else Flat(rows[..|rows| - 1]) + rows[|rows| - 1]
  }

  lemma {:induction false} FlatLength(rows: seq<seq<bool>>)
    requires forall i :: 0 <= i < |rows| ==> |rows[i]| == 8
    ensures |Flat(rows)| == 8 * |rows|
  {
    if rows != [] { FlatLength(rows[..|rows| - 1]); }
  }

  /** Row after row: cell j of row i is bit 8 * i + j. */
  lemma {:induction false} FlatAt(rows: seq<seq<bool>>, i: nat, j: nat)
    requires (forall k :: 0 <= k < |rows| ==> |rows[k]| == 8) && i < |rows| && j < 8
    ensures 8 * i + j < |Flat(rows)| && Flat(rows)[8 * i + j] == rows[i][j]
  {
    var init := rows[..|rows| - 1];
    FlatLength(init);
    if i < |init| {
      FlatAt(init, i, j);
    }
  }

  lemma {:induction false} FlatDetermines(a: seq<seq<bool>>, b: seq<seq<bool>>)
    requires |a| == |b| && Flat(a) == Flat(b)
    requires forall i :: 0 <= i < |a| ==> |a[i]| == 8 && |b[i]| == 8
    ensures a == b
  {
    if a != [] {
      var x, y := a[..|a| - 1], b[..|b| - 1];
      FlatLength(x);
      FlatLength(y);
      assert Flat(a)[..|Flat(x)|] == Flat(x) && Flat(b)[..|Flat(y)|] == Flat(y);
      assert Flat(a)[|Flat(x)|..] == a[|a| - 1] && Flat(b)[|Flat(y)|..] == b[|b| - 1];
      FlatDetermines(x, y);
      assert a == x + [a[|a| - 1]] && b == y + [b[|b| - 1]];
    }
  }

  /** How many cells differ. */
  function Differing(a: seq<bool>, b: seq<bool>): nat
    requires |a| == |b|
  {
    if a == [] then 0 else (if a[0] != b[0] then 1 else 0) + Differing(a[1..], b[1..])
  }

  lemma {:induction false} DifferingIsMetric(a: seq<bool>, b: seq<bool>, c: seq<bool>)
    requires |a| == |b| == |c|
    ensures Differing(a, b) == 0 <==> a == b
    ensures Differing(a, b) == Differing(b, a)
    ensures Differing(a, c) <= Differing(a, b) + Differing(b, c)
  {
    if a != [] {
      DifferingIsMetric(a[1..], b[1..], c[1..]);
      assert a == [a[0]] + a[1..] && b == [b[0]] + b[1..];
    }
  }

  /** The distance of two words: the set bits of their exclusive or. */
  function Distance(x: Bits, y: Bits): nat
    requires |x| == |y|
  {
    Ones(Xor(x, y))
  }

  lemma {:induction false} DistanceCountsCells(a: seq<bool>, b: seq<bool>)
    requires |a| == |b|
    ensures Distance(a, b) == Differing(a, b) <= |a|
  {
    if a != [] {
      DistanceCountsCells(a[1..], b[1..]);
      assert Xor(a, b)[1..] == Xor(a[1..], b[1..]);
    }
  }

  /** The bit-building loops of pHashValue: cell k of the mask is bit k of the hash. */
  method PHashValue(mask: Mask) returns (hash: Bits)
    ensures |hash| == CELLS && hash == Flat(mask)
    ensures forall i, j :: 0 <= i < 8 && 0 <= j < 8 ==> hash[8 * i + j] == mask[i][j]
  {
    hash := Zero(CELLS);
    var counter := 0;
    for i := 0 to 8
      invariant counter == 8 * i && |hash| == CELLS
      invariant |Flat(mask[..i])| == 8 * i
      invariant hash[..8 * i] == Flat(mask[..i])
      invariant forall k :: 8 * i <= k < CELLS ==> !hash[k]
    {
      ghost var done := hash[..8 * i];
      for j := 0 to 8
        invariant counter == 8 * i + j && |hash| == CELLS
        invariant hash[..8 * i] == done
        invariant forall k :: 0 <= k < j ==> hash[8 * i + k] == mask[i][k]
        invariant forall k :: 8 * i + j <= k < CELLS ==> !hash[k]
      {
        if mask[i][j] {
          hash := Or(hash, OneAt(CELLS, counter));
        }
        counter := counter + 1;
      }
      assert mask[..i + 1][..i] == mask[..i];
      assert hash[..8 * (i + 1)] == done + mask[i];
    }
    assert mask[..8] == mask;
    assert hash[..64] == hash;
    forall i, j | 0 <= i < 8 && 0 <= j < 8 ensures hash[8 * i + j] == mask[i][j] {
      FlatAt(mask, i, j);
    }
  }

  /** calcHammingDistance on signed words. overflows tells whether val - 1 was ever
      computed for the smallest value, where C++ leaves the result undefined and a
      machine wraps around: exactly when the sign bits differ. */
  method CalcHammingDistance(x: Bits, y: Bits) returns (dist: nat, overflows: bool)
    requires |x| == |y|
    ensures dist == Differing(x, y)
    ensures overflows <==> Negative(x) != Negative(y)
  {
    DistanceCountsCells(x, y);
    dist, overflows := 0, false;
    var val := Xor(x, y);
    while val != Zero(|val|)
      invariant |val| == |x|
      invariant dist + Ones(val) == Differing(x, y)
      invariant (overflows || Negative(val)) <==> Negative(x) != Negative(y)
      decreases Ones(val)
    {
      ClearingRemovesOne(val);
      SignClearedLast(val);
      dist := dist + 1;
      overflows := overflows || val == Smallest(|val|);
      val := And(val, Minus1(val));
    }
    NoOnes(val);
  }

  /** The distance computed for the hashes of any masks counts the cells that
      differ: it is at most 64, zero only for equal masks, symmetric, and obeys
      the triangle inequality. */
  lemma HashDistanceIsMetric(a: Mask, b: Mask, c: Mask)
    ensures |Flat(a)| == |Flat(b)| == |Flat(c)| == CELLS
    ensures Distance(Flat(a), Flat(b)) == Differing(Flat(a), Flat(b)) <= CELLS
    ensures Distance(Flat(a), Flat(b)) == 0 <==> a == b
    ensures Distance(Flat(a), Flat(b)) == Distance(Flat(b), Flat(a))
    ensures Distance(Flat(a), Flat(c)) <= Distance(Flat(a), Flat(b)) + Distance(Flat(b), Flat(c))
  {
    FlatLength(a);
    FlatLength(b);
    FlatLength(c);
    DistanceCountsCells(Flat(a), Flat(b));
    DistanceCountsCells(Flat(b), Flat(a));
    DistanceCountsCells(Flat(a), Flat(c));
    DistanceCountsCells(Flat(b), Flat(c));
    DifferingIsMetric(Flat(a), Flat(b), Flat(c));
    if Flat(a) == Flat(b) {
      FlatDetermines(a, b);
    }
  }
}
