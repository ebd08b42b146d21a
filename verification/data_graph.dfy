/** The two pure rules of the plotting layout: the line type picked for the
    n-th curve, and the split of a current series into the positive and the
    negative curve drawn on a logarithmic axis. */
module DataGraph {
  import opened Wrappers

  const Colors: seq<string> := ["r", "b", "g", "c", "m", "y", "k"]
  const Styles: seq<string> := ["-", "--", "-.", ":"]

  /** Python's `s[i]` for an int index: a negative index counts from the
      end, and an index out of range raises (None here). */
  function PyIndex<T>(s: seq<T>, i: int): (r: Option<T>)
    ensures 0 <= i < |s| ==> r == Some(s[i])
    ensures -|s| <= i < 0 ==> r == Some(s[|s| + i])
    ensures r.None? <==> i < -|s| || |s| <= i
  {
    if 0 <= i < |s| then Some(s[i])
    else if -|s| <= i < 0 then Some(s[|s| + i])
    else None
  }

  /** `line_type_from_index`: style `n // 7` and colour `n % 7` (floor
      division and modulo, as Python computes them, which agree with
      Dafny's for a positive divisor); when the style index is out of
      range the result is "-r". */
  function LineTypeFromIndex(n: int): (r: string)
    ensures 0 <= n < 28 ==> r == Styles[n / 7] + Colors[n % 7]
    ensures -28 <= n < 0 ==> r == Styles[4 + n / 7] + Colors[n % 7]
    ensures n < -28 || 28 <= n ==> r == "-r"
  {
    var color := Colors[n % |Colors|];
    match PyIndex(Styles, n / |Colors|)
    case Some(style) => style + color
    case None => "-r"
  }

  /** Position of `x` in `xs`, if it occurs. */
  function IndexOf(xs: seq<string>, x: string): (r: Option<nat>)
    ensures r.Some? ==> r.value < |xs| && xs[r.value] == x && x !in xs[..r.value]
    ensures r.None? ==> x !in xs
  {
    if |xs| == 0 then None
    else if xs[0] == x then Some(0)
    else match IndexOf(xs[1..], x)
      case Some(k) =>
        assert xs[..k + 1] == [xs[0]] + xs[1..][..k];
        Some(k + 1)
      case None => None
  }

  /** Reads a line type back to the curve index in 0..27 it is drawn for:
      the last character is the colour, the rest the style. */
  function IndexOfLineType(s: string): (r: Option<nat>)
    ensures r.Some? ==> r.value < 28
  {
    if |s| == 0 then None
    else match (IndexOf(Styles, s[..|s| - 1]), IndexOf(Colors, [s[|s| - 1]]))
      case (Some(st), Some(co)) => Some(7 * st + co)
      case _ => None
  }

  /** The line types of the first 28 curves read back to their index, so
      no two of them are the same. */
  lemma LineTypeRoundTrip(n: int)
    requires 0 <= n < 28
    ensures IndexOfLineType(LineTypeFromIndex(n)) == Some(n)
  {
    var s := LineTypeFromIndex(n);
    var st := n / 7;
    var co := n % 7;
    assert s[..|s| - 1] == Styles[st] && [s[|s| - 1]] == Colors[co];
    assert IndexOf(Styles, Styles[st]) == Some(st) by {
      DistinctIndex(Styles, st);
    }
    assert IndexOf(Colors, Colors[co]) == Some(co) by {
      DistinctIndex(Colors, co);
    }
  }

  /** In a list without repeats, an element is found at its own position. */
  lemma DistinctIndex(xs: seq<string>, i: nat)
    requires i < |xs|
    requires forall a, b :: 0 <= a < b < |xs| ==> xs[a] != xs[b]
    ensures IndexOf(xs, xs[i]) == Some(i)
  {
  }

  /** The first 28 curves get pairwise different line types. */
  lemma LineTypeInjective(n: int, m: int)
    requires 0 <= n < 28 && 0 <= m < 28 && n != m
    ensures LineTypeFromIndex(n) != LineTypeFromIndex(m)
  {
    LineTypeRoundTrip(n);
    LineTypeRoundTrip(m);
  }

  /** Within a block of seven consecutive curves the style stays the same
      and the colours differ; the first curve is a solid red line. */
  lemma LineTypeBlocks(n: int, m: int)
    requires 0 <= n < m < 28 && n / 7 == m / 7
    ensures LineTypeFromIndex(n)[..|LineTypeFromIndex(n)| - 1] == LineTypeFromIndex(m)[..|LineTypeFromIndex(m)| - 1]
    ensures LineTypeFromIndex(n)[|LineTypeFromIndex(n)| - 1] != LineTypeFromIndex(m)[|LineTypeFromIndex(m)| - 1]
    ensures LineTypeFromIndex(0) == "-r"
  {
    var style := Styles[n / 7];
    var cn := Colors[n % 7];
    var cm := Colors[m % 7];
    assert |cn| == 1 && |cm| == 1;
    var s := LineTypeFromIndex(n);
    var t := LineTypeFromIndex(m);
    assert s == style + cn && t == style + cm;
    assert |s| - 1 == |style| && |t| - 1 == |style|;
    assert s[..|style|] == style && t[..|style|] == style;
    assert s[|style|] == cn[0] && t[|style|] == cm[0];
    assert n % 7 != m % 7;
  }

  /** Negative indices from -28 to -1 repeat the line types of 0 to 27;
      every other index falls back to the line type of curve 0. */
  lemma LineTypeNegative(n: int)
    requires 0 <= n < 28
    ensures LineTypeFromIndex(n - 28) == LineTypeFromIndex(n)
    ensures LineTypeFromIndex(n + 28) == LineTypeFromIndex(0)
  {
    assert (n - 28) / 7 == n / 7 - 4;
    assert (n - 28) % 7 == n % 7;
  }

  /** `current_min`: the floor of the logarithmic current axis. */
  const CurrentMin: real := 0.000000000001

  /** The values one current contributes to the positive and to the
      negative curve, as written: a current at or below -CurrentMin puts
      its magnitude in the negative curve and keeps the positive entry as
      copied; a current at or above CurrentMin keeps both copied entries; a
      current in between puts CurrentMin in both. */
  function SplitCurrent(c: real): (r: (real, real))
    ensures c <= -CurrentMin ==> r == (c, -c)
    ensures CurrentMin <= c ==> r == (c, c)
    ensures -CurrentMin < c < CurrentMin ==> r == (CurrentMin, CurrentMin)
  {
    if c <= -CurrentMin then (c, -c)
    else if c >= CurrentMin then (c, c)
    else (CurrentMin, CurrentMin)
  }

  function Max(a: real, b: real): real
  {
    if a < b then b else a
  }

  function Abs(a: real): real
  {
    if a < 0.0 then -a else a
  }

  /** Whatever the sign, the larger of the two entries is the current's
      magnitude floored at CurrentMin. */
  lemma SplitCurrentEnvelope(c: real)
    ensures Max(SplitCurrent(c).0, SplitCurrent(c).1) == Max(Abs(c), CurrentMin)
  {
  }

  /** The loop over every series and every value (`currents_pos_list` and
      `currents_neg_list` start as copies of the input). */
  function SignSplit(currents: seq<seq<real>>): (r: (seq<seq<real>>, seq<seq<real>>))
    ensures |r.0| == |currents| && |r.1| == |currents|
    ensures forall j :: 0 <= j < |currents| ==> |r.0[j]| == |currents[j]| && |r.1[j]| == |currents[j]|
    ensures forall j, i :: 0 <= j < |currents| && 0 <= i < |currents[j]| ==>
      r.0[j][i] == SplitCurrent(currents[j][i]).0 && r.1[j][i] == SplitCurrent(currents[j][i]).1
  {
    (seq(|currents|, j requires 0 <= j < |currents| =>
       seq(|currents[j]|, i requires 0 <= i < |currents[j]| => SplitCurrent(currents[j][i]).0)),
     seq(|currents|, j requires 0 <= j < |currents| =>
       seq(|currents[j]|, i requires 0 <= i < |currents[j]| => SplitCurrent(currents[j][i]).1)))
  }

  /** As written, a positive current also shows on the negative curve: the
      entry the negative curve gets for a current of 1 is 1, above the
      axis floor. */
  lemma PositiveCurrentOnNegativeCurve()
    ensures SplitCurrent(1.0).1 == 1.0 && SplitCurrent(1.0).1 > CurrentMin
  {
  }

  /** The split the layout evidently intends: each curve shows only the
      currents of its own sign, the other sign going below zero where the
      logarithmic axis does not draw it. */
  function SplitCurrentIntended(c: real): (r: (real, real))
  {
    if c <= -CurrentMin then (c, -c)
    else if c >= CurrentMin then (c, -c)
    else (CurrentMin, CurrentMin)
  }

  /** The intended split draws a current of magnitude at least CurrentMin
      on exactly the curve of its sign, and keeps the envelope. */
  lemma SplitCurrentIntendedSign(c: real)
    ensures Abs(c) >= CurrentMin ==>
      && (SplitCurrentIntended(c).0 > 0.0 <==> c > 0.0)
      && (SplitCurrentIntended(c).1 > 0.0 <==> c < 0.0)
    ensures Max(SplitCurrentIntended(c).0, SplitCurrentIntended(c).1) == Max(Abs(c), CurrentMin)
  {
  }

  /** The loop with the intended split. */
  function SignSplitIntended(currents: seq<seq<real>>): (r: (seq<seq<real>>, seq<seq<real>>))
    ensures |r.0| == |currents| && |r.1| == |currents|
    ensures forall j :: 0 <= j < |currents| ==> |r.0[j]| == |currents[j]| && |r.1[j]| == |currents[j]|
    ensures forall j, i :: 0 <= j < |currents| && 0 <= i < |currents[j]| ==>
      && (Abs(currents[j][i]) >= CurrentMin ==>
           (r.0[j][i] > 0.0 <==> currents[j][i] > 0.0) && (r.1[j][i] > 0.0 <==> currents[j][i] < 0.0))
      && Max(r.0[j][i], r.1[j][i]) == Max(Abs(currents[j][i]), CurrentMin)
  {
    (seq(|currents|, j requires 0 <= j < |currents| =>
       seq(|currents[j]|, i requires 0 <= i < |currents[j]| => SplitCurrentIntended(currents[j][i]).0)),
     seq(|currents|, j requires 0 <= j < |currents| =>
       seq(|currents[j]|, i requires 0 <= i < |currents[j]| => SplitCurrentIntended(currents[j][i]).1)))
  }
}
