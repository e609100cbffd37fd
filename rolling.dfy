/** The rolling-window aggregator `getRolling`: the trailing window sums of a
    series divided by `scale`, computed with a running sum. */
module RollingWindow {

  /** The sum of a sequence, folded from the left as `_.reduce(xs, (r, v) => r + v, 0)` folds. */
  function Sum(s: seq<real>): real
  {
    if s == [] then 0.0 else Sum(s[..|s| - 1]) + s[|s| - 1]
  }

  lemma {:induction false} SumCons(x: real, s: seq<real>)
    ensures Sum([x] + s) == x + Sum(s)
  {
    if s == [] {
      assert ([x] + s)[..0] == [];
    } else {
      assert ([x] + s)[..|s|] == [x] + s[..|s| - 1];
      SumCons(x, s[..|s| - 1]);
    }
  }

  /** Moving the window one place: the sum gains the entering element and loses the leaving one. */
  lemma SumSlide(s: seq<real>, i: nat, j: nat)
    requires i <= j < |s|
    ensures Sum(s[i + 1..j + 1]) == Sum(s[i..j]) - s[i] + s[j]
  {
    assert s[i..j + 1][..j - i] == s[i..j];
    assert s[i..j + 1] == [s[i]] + s[i + 1..j + 1];
    SumCons(s[i], s[i + 1..j + 1]);
  }

  lemma {:induction false} SumConstant(s: seq<real>, c: real)
    requires forall k :: 0 <= k < |s| ==> s[k] == c
    ensures Sum(s) == |s| as real * c
  {
    if s != [] {
      SumConstant(s[..|s| - 1], c);
    }
  }

  /** The brute-force reference: element i is the sum of the window data[i..i+interval] over scale,
      and there is no element at all when the window is longer than the data. */
  function Rolling(data: seq<real>, interval: nat, scale: real): seq<real>
    requires scale != 0.0
  {
    if interval > |data| then []
    else seq(|data| - interval + 1, i requires 0 <= i <= |data| - interval => Sum(data[i..i + interval]) / scale)
  }

  /** getRolling: one full sum for the first window, then a running sum that adds the element
      entering the window and subtracts the one leaving it.  It computes the brute-force slice sums. */
  method GetRolling(data: seq<real>, interval: nat, scale: real) returns (rolling: seq<real>)
    requires scale != 0.0
    ensures rolling == Rolling(data, interval, scale)
    ensures interval > |data| ==> rolling == []
    ensures interval <= |data| ==> |rolling| == |data| - interval + 1
  {
    rolling := [];
    if interval <= |data| {
      var sum := Sum(data[..interval]);
      rolling := rolling + [sum / scale];
      var t, b := 1, interval;
      while b < |data|
        invariant 1 <= t && b == t - 1 + interval <= |data|
        invariant sum == Sum(data[t - 1..b])
        invariant |rolling| == t
        invariant forall i :: 0 <= i < t ==> rolling[i] == Sum(data[i..i + interval]) / scale
      {
        SumSlide(data, t - 1, b);
        sum := sum - data[t - 1] + data[b];
        rolling := rolling + [sum / scale];
        t, b := t + 1, b + 1;
      }
    }
  }

  /** A constant series c has a constant rolling average: every window averages to c. */
  lemma RollingAverageConstant(data: seq<real>, c: real, interval: nat, w: real)
    requires interval >= 1 && w == interval as real
    requires forall k :: 0 <= k < |data| ==> data[k] == c
    ensures forall i :: 0 <= i < |Rolling(data, interval, w)| ==> Rolling(data, interval, w)[i] == c
  {
    forall i | 0 <= i < |Rolling(data, interval, w)|
      ensures Rolling(data, interval, w)[i] == c
    {
      SumConstant(data[i..i + interval], c);
      assert Sum(data[i..i + interval]) == w * c;
      assert w * c / w == c;
    }
  }

  /** A constant series c has a constant rolling sum: every window holds interval * c. */
  lemma RollingSumConstant(data: seq<real>, c: real, interval: nat)
    requires forall k :: 0 <= k < |data| ==> data[k] == c
    ensures forall i :: 0 <= i < |Rolling(data, interval, 1.0)| ==>
      Rolling(data, interval, 1.0)[i] == interval as real * c
  {
    forall i | 0 <= i < |Rolling(data, interval, 1.0)|
      ensures Rolling(data, interval, 1.0)[i] == interval as real * c
    {
      SumConstant(data[i..i + interval], c);
    }
  }

  /** The worked example: a two-day average of 10, 20, 30, 40. */
  lemma RollingExample()
    ensures Rolling([10.0, 20.0, 30.0, 40.0], 2, 2.0) == [15.0, 25.0, 35.0]
  {
    var d := [10.0, 20.0, 30.0, 40.0];
    assert Sum(d[0..2]) == 30.0 by { assert d[0..2][..1] == [10.0]; assert [10.0][..0] == []; }
    assert Sum(d[1..3]) == 50.0 by { assert d[1..3][..1] == [20.0]; assert [20.0][..0] == []; }
    assert Sum(d[2..4]) == 70.0 by { assert d[2..4][..1] == [30.0]; assert [30.0][..0] == []; }
  }
}
