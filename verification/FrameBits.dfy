/** Bitmaps of page frames: runs of bits and the number of clear ones. */
module FrameBits {
  function Clear(bits: seq<bool>): (n: nat)
    ensures n <= |bits|
  {
    if bits == [] then 0 else Clear(bits[..|bits| - 1]) + if bits[|bits| - 1] then 0 else 1
  }

  function SetRun(bits: seq<bool>, pos: nat, cnt: nat, value: bool): (r: seq<bool>)
    ensures |r| == |bits|
  {
    seq(|bits|, i requires 0 <= i < |bits| => if pos <= i < pos + cnt then value else bits[i])
  }

  /** The bits from `pos` on are all clear; there is no clear bit past the end of the bitmap. */
  ghost predicate RunFree(bits: seq<bool>, pos: nat, cnt: nat) {
    pos + cnt <= |bits| && forall i | pos <= i < pos + cnt :: !bits[i]
  }

  ghost predicate RunSet(bits: seq<bool>, pos: nat, cnt: nat) {
    pos + cnt <= |bits| && forall i | pos <= i < pos + cnt :: bits[i]
  }

  lemma {:induction false} ClearConcat(a: seq<bool>, b: seq<bool>)
    ensures Clear(a + b) == Clear(a) + Clear(b)
  {
    if b == [] {
      assert a + b == a;
    } else {
      ClearConcat(a, b[..|b| - 1]);
      assert (a + b)[..|a + b| - 1] == a + b[..|b| - 1];
    }
  }

  lemma {:induction false} ClearConstant(bits: seq<bool>, value: bool)
    requires forall i | 0 <= i < |bits| :: bits[i] == value
    ensures Clear(bits) == if value then 0 else |bits|
  {
    if bits != [] {
      ClearConstant(bits[..|bits| - 1], value);
    }
  }

  /** Only the bits of the run matter to the change of the count. */
  lemma ClearSplit(bits: seq<bool>, pos: nat, cnt: nat, n: nat)
    requires pos + cnt <= n <= |bits|
    ensures Clear(bits[..n]) == Clear(bits[..pos]) + Clear(bits[pos..pos + cnt]) + Clear(bits[pos + cnt..n])
  {
    assert bits[..n] == (bits[..pos] + bits[pos..pos + cnt]) + bits[pos + cnt..n];
    ClearConcat(bits[..pos] + bits[pos..pos + cnt], bits[pos + cnt..n]);
    ClearConcat(bits[..pos], bits[pos..pos + cnt]);
  }

  lemma SetRunParts(bits: seq<bool>, pos: nat, cnt: nat, value: bool, n: nat)
    requires pos + cnt <= n <= |bits|
    ensures var r := SetRun(bits, pos, cnt, value);
            && r[..pos] == bits[..pos] && r[pos + cnt..n] == bits[pos + cnt..n]
            && Clear(r[pos..pos + cnt]) == if value then 0 else cnt
  {
    hide Clear;
    var r := SetRun(bits, pos, cnt, value);
    var mid := r[pos..pos + cnt];
    assert forall i | 0 <= i < |mid| :: mid[i] == value;
    ClearConstant(mid, value);
    var a, b := r[..pos], bits[..pos];
    assert forall i | 0 <= i < pos :: a[i] == b[i];
    var c, d := r[pos + cnt..n], bits[pos + cnt..n];
    assert forall i | 0 <= i < |c| :: c[i] == d[i];
  }

  lemma SetRunClear(bits: seq<bool>, pos: nat, cnt: nat, value: bool, n: nat)
    requires pos + cnt <= n <= |bits|
    ensures Clear(SetRun(bits, pos, cnt, value)[..n]) ==
            Clear(bits[..n]) - Clear(bits[pos..pos + cnt]) + if value then 0 else cnt
  {
    hide SetRun, Clear;
    var r := SetRun(bits, pos, cnt, value);
    ClearSplit(bits, pos, cnt, n);
    ClearSplit(r, pos, cnt, n);
    SetRunParts(bits, pos, cnt, value, n);
  }

  lemma {:induction false} AllSetOrNot(bits: seq<bool>)
    ensures Clear(bits) == 0 <==> forall i | 0 <= i < |bits| :: bits[i]
  {
    if bits != [] {
      AllSetOrNot(bits[..|bits| - 1]);
    }
  }

  lemma RunSetCount(bits: seq<bool>, pos: nat, cnt: nat)
    requires pos + cnt <= |bits|
    ensures Clear(bits[pos..pos + cnt]) == 0 <==> RunSet(bits, pos, cnt)
  {
    hide Clear;
    var mid := bits[pos..pos + cnt];
    AllSetOrNot(mid);
    if RunSet(bits, pos, cnt) {
      assert forall i | 0 <= i < |mid| :: mid[i];
    }
    if forall i | 0 <= i < |mid| :: mid[i] {
      forall i | pos <= i < pos + cnt ensures bits[i] {
        assert mid[i - pos];
      }
    }
  }

  lemma RunFreeCount(bits: seq<bool>, pos: nat, cnt: nat, n: nat)
    requires RunFree(bits, pos, cnt) && pos + cnt <= n <= |bits|
    ensures Clear(bits[pos..pos + cnt]) == cnt && cnt <= Clear(bits[..n])
  {
    ClearConstant(bits[pos..pos + cnt], false);
    ClearSplit(bits, pos, cnt, n);
  }
}
