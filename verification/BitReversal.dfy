/** The bit-reversal permutation, and the in-place loop that applies it. */
module BitReversal {

  function Pow2(m: nat): (p: nat)
    ensures p >= 1
    ensures m > 0 ==> p % 2 == 0
  {
    if m == 0 then 1 else 2 * Pow2(m - 1)
  }

  /** Bitwise and of two sizes. */
  function And(a: nat, b: nat): nat {
    if a == 0 || b == 0 then 0
    else 2 * And(a / 2, b / 2) + (a % 2) * (b % 2)
  }

  predicate IsPowerOfTwo(n: nat) {
    n != 0 && And(n, n - 1) == 0
  }

  lemma {:induction false} AndSelf(n: nat)
    ensures And(n, n) == n
  {
    if n != 0 {
      AndSelf(n / 2);
      assert (n % 2) * (n % 2) == n % 2;
    }
  }

  lemma {:induction false} PowerPasses(m: nat)
    ensures IsPowerOfTwo(Pow2(m))
  {
    var n := Pow2(m);
    if m > 0 {
      PowerPasses(m - 1);
      assert n / 2 == Pow2(m - 1) && (n - 1) / 2 == n / 2 - 1;
      assert And(n, n - 1) == 2 * And(n / 2, n / 2 - 1);
    }
  }

  lemma {:induction false} PassingIsPower(n: nat) returns (m: nat)
    requires IsPowerOfTwo(n)
    ensures n == Pow2(m)
  {
    if n == 1 {
      return 0;
    }
    assert And(n, n - 1) == 2 * And(n / 2, (n - 1) / 2) + (n % 2) * ((n - 1) % 2);
    if n % 2 == 1 {
      AndSelf(n / 2);
      assert false;
    }
    var k := PassingIsPower(n / 2);
    return k + 1;
  }

  /** The mask test accepts exactly the powers of two. */
  lemma PowerOfTwoTest(n: nat)
    ensures IsPowerOfTwo(n) <==> exists m: nat :: n == Pow2(m)
  {
    if IsPowerOfTwo(n) {
      var m := PassingIsPower(n);
    }
    if m: nat :| n == Pow2(m) {
      PowerPasses(m);
    }
  }

  /** The m low bits of i in reverse order. */
  function Rev(i: nat, m: nat): nat {
    if m == 0 then 0 else (if i % 2 == 1 then Pow2(m - 1) else 0) + Rev(i / 2, m - 1)
  }

  lemma {:induction false} RevBound(i: nat, m: nat)
    ensures Rev(i, m) < Pow2(m)
  {
    if m > 0 {
      RevBound(i / 2, m - 1);
    }
  }

  /** Splitting off the top bit of the argument instead of the bottom one. */
  lemma {:induction false} RevTop(top: bool, low: nat, m: nat)
    requires m > 0 && low < Pow2(m - 1)
    ensures Rev(low + (if top then Pow2(m - 1) else 0), m) == (if top then 1 else 0) + 2 * Rev(low, m - 1)
  {
    var i := low + if top then Pow2(m - 1) else 0;
    if m == 1 {
      assert Pow2(0) == 1 && Rev(i / 2, 0) == 0;
    } else {
      RevTop(top, low / 2, m - 1);
      assert Pow2(m - 1) == 2 * Pow2(m - 2);
      assert i / 2 == low / 2 + (if top then Pow2(m - 2) else 0) && i % 2 == low % 2;
    }
  }

  /** Reversing twice gives the index back: the permutation is its own inverse. */
  lemma {:induction false} RevInvolution(i: nat, m: nat)
    requires i < Pow2(m)
    ensures Rev(Rev(i, m), m) == i
    ensures Rev(i, m) < Pow2(m)
  {
    RevBound(i, m);
    if m > 0 {
      var low := Rev(i / 2, m - 1);
      RevInvolution(i / 2, m - 1);
      RevTop(i % 2 == 1, low, m);
    }
  }

  predicate HasBit(j: nat, bit: nat)
    requires bit > 0
  {
    (j / bit) % 2 == 1
  }

  function ToggleBit(j: nat, bit: nat): (r: nat)
    requires bit > 0
    ensures HasBit(j, bit) ==> r == j - bit
  {
    if HasBit(j, bit) then assert j / bit >= 1; assert j >= bit; j - bit else j + bit
  }

  lemma QuotientOfOffset(h: nat, r: nat)
    requires r < h
    ensures (h + r) / h == 1 && r / h == 0
  {
  }

  /** One step of the reverse carry: the top bit of Rev(q, b) is the low bit of q. */
  lemma RevTopBit(q: nat, b: nat)
    requires b > 0
    ensures HasBit(Rev(q, b), Pow2(b - 1)) <==> q % 2 == 1
    ensures q % 2 == 1 ==> ToggleBit(Rev(q, b), Pow2(b - 1)) == Rev(q / 2, b - 1)
    ensures q % 2 == 1 ==> Rev(q + 1, b) == Rev(q / 2 + 1, b - 1)
    ensures q % 2 == 0 ==> ToggleBit(Rev(q, b), Pow2(b - 1)) == Rev(q + 1, b)
  {
    RevBound(q / 2, b - 1);
    QuotientOfOffset(Pow2(b - 1), Rev(q / 2, b - 1));
    if q % 2 == 1 {
      assert (q + 1) / 2 == q / 2 + 1;
    } else {
      assert (q + 1) / 2 == q / 2;
    }
  }

  /** The inner loop of the permutation: from the reversal of i - 1 to the reversal of i. */
  method ReverseIncrement(n: nat, i: nat, start: nat, ghost m: nat) returns (j: nat)
    requires n == Pow2(m) && 1 <= i < n
    requires start == Rev(i - 1, m)
    ensures j == Rev(i, m)
  {
    j := start;
    var bit := n / 2;
    ghost var q, b := i - 1, m;
    assert m > 0;
    while HasBit(j, bit)
      invariant 0 < b <= m && 0 <= q && bit == Pow2(b - 1)
      invariant q + 1 < Pow2(b)
      invariant j == Rev(q, b) && Rev(i, m) == Rev(q + 1, b)
      decreases b
    {
      RevTopBit(q, b);
      j := ToggleBit(j, bit);
      bit := bit / 2;
      q, b := q / 2, b - 1;
      assert b > 0;
    }
    RevTopBit(q, b);
    j := ToggleBit(j, bit);
  }

  /** The buffer with every index replaced by its reversal. */
  ghost function Permuted<T>(s: seq<T>, m: nat): (r: seq<T>)
    requires |s| == Pow2(m)
    ensures |r| == |s| && forall k :: 0 <= k < |s| ==> Rev(k, m) < |s| && r[k] == s[Rev(k, m)]
  {
    assert forall k: nat :: k < |s| ==> Rev(k, m) < |s| by {
      forall k: nat | k < |s| ensures Rev(k, m) < |s| { RevBound(k, m); }
    }
    seq(|s|, k requires 0 <= k < |s| => s[Rev(k, m)])
  }

  /** Half-way through the swaps: the pairs that have a member below i are exchanged. */
  ghost predicate SwappedBelow<T>(s: seq<T>, now: seq<T>, perm: seq<nat>, i: nat)
    requires |s| == |now| == |perm|
    requires forall k :: 0 <= k < |perm| ==> perm[k] < |perm|
  {
    forall k :: 0 <= k < |s| ==> now[k] == if k < i || perm[k] < i then s[perm[k]] else s[k]
  }

  ghost predicate IsInvolution(perm: seq<nat>) {
    forall k :: 0 <= k < |perm| ==> perm[k] < |perm| && perm[perm[k]] == k
  }

  lemma SwapStep<T>(s: seq<T>, now: seq<T>, perm: seq<nat>, i: nat, j: nat)
    requires |s| == |now| == |perm| && IsInvolution(perm)
    requires i < |s| && perm[i] == j
    requires SwappedBelow(s, now, perm, i)
    ensures j < |s| && SwappedBelow(s, if i < j then now[i := now[j]][j := now[i]] else now, perm, i + 1)
  {
  }

  /** Swapping each pair once, when the larger index is met from the smaller one. */
  method Permute<T>(data: array<T>, ghost m: nat)
    requires data.Length == Pow2(m)
    modifies data
    ensures data[..] == Permuted(old(data[..]), m)
  {
    var n := data.Length;
    ghost var s := data[..];
    ghost var perm := Reversals(m);
    var i, j := 1, 0;
    RevZero(m);
    while i < n
      invariant 1 <= i <= n
      invariant j == Rev(i - 1, m)
      invariant data.Length == n && SwappedBelow(s, data[..], perm, i)
    {
      j := ReverseIncrement(n, i, j, m);
      ghost var now := data[..];
      SwapStep(s, now, perm, i, j);
      if i < j {
        data[i], data[j] := data[j], data[i];
        assert data[..] == now[i := now[j]][j := now[i]];
      }
      i := i + 1;
    }
  }

  ghost function Reversals(m: nat): (perm: seq<nat>)
    ensures |perm| == Pow2(m) && forall k :: 0 <= k < |perm| ==> perm[k] == Rev(k, m)
    ensures IsInvolution(perm)
  {
    var perm := seq(Pow2(m), k requires 0 <= k => Rev(k, m));
    assert IsInvolution(perm) by {
      forall k | 0 <= k < |perm| ensures perm[k] < |perm| && perm[perm[k]] == k {
        RevInvolution(k, m);
      }
    }
    perm
  }

  lemma {:induction false} RevZero(m: nat)
    ensures Rev(0, m) == 0
  {
    if m > 0 {
      RevZero(m - 1);
    }
  }
}
