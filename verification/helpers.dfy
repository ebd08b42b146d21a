/** The module-level helpers of the device module: clamping a value into a
    range, and the hex dump of a list of words. */
module Helpers {
  import opened Text

  /** `value_from_bound`: `max(lo, min(hi, val))`. With an empty range
      (lo > hi) the lower bound wins. */
  function ValueFromBound(val: real, lo: real, hi: real): (r: real)
    ensures lo <= hi ==> lo <= r <= hi
    ensures lo <= val <= hi ==> r == val
    ensures val < lo ==> r == lo
    ensures lo <= hi < val ==> r == hi
    ensures hi < lo ==> r == lo
  {
    var low := if hi < val then hi else val;
    if lo < low then low else lo
  }

  /** Clamping twice clamps once. */
  lemma ValueFromBoundIdempotent(val: real, lo: real, hi: real)
    ensures ValueFromBound(ValueFromBound(val, lo, hi), lo, hi) == ValueFromBound(val, lo, hi)
  {
  }

  /** One item of the dump: `"%04X "`. */
  function Cell(v: int): (r: string)
    ensures 0 <= v < 0x10000 ==> |r| == 5 && ValueOf(r[..4], 16) == v && HexDigits(r[..4]) && r[4] == ' '
  {
    var h := Hex04(v);
    assert (h + " ")[..|h|] == h;
    h + " "
  }

  /** The cells of all items, in order. */
  function Cells(items: seq<int>): (r: seq<string>)
    ensures |r| == |items|
    ensures forall i :: 0 <= i < |items| ==> r[i] == Cell(items[i])
  {
    seq(|items|, i requires 0 <= i < |items| => Cell(items[i]))
  }

  /** `list_to_str`: the items' cells joined by a space. */
  function ListToStr(items: seq<int>): (r: string)
    ensures |items| == 0 <==> r == ""
  {
    if |items| > 0 then JoinHeadLength(Cells(items), ' '); Join(Cells(items), " ")
    else Join(Cells(items), " ")
  }

  /** A join is at least as long as its first field. */
  lemma JoinHeadLength(xs: seq<string>, sep: char)
    requires |xs| > 0
    ensures |Join(xs, [sep])| >= |xs[0]|
  {
  }

  /** Joining five-character cells with single spaces puts cell i at
      characters 6i to 6i+4 of a string one space short of 6n characters. */
  lemma {:induction false} JoinCells(xs: seq<string>, sep: char)
    requires forall i :: 0 <= i < |xs| ==> |xs[i]| == 5
    ensures |xs| > 0 ==> |Join(xs, [sep])| == 6 * |xs| - 1
    ensures forall i :: 0 <= i < |xs| ==>
      6 * i + 5 <= |Join(xs, [sep])| && Join(xs, [sep])[6 * i..6 * i + 5] == xs[i]
  {
    if |xs| > 1 {
      var tail := Join(xs[1..], [sep]);
      var j := Join(xs, [sep]);
      JoinCells(xs[1..], sep);
      assert j == xs[0] + [sep] + tail;
      forall i | 0 <= i < |xs|
        ensures 6 * i + 5 <= |j| && j[6 * i..6 * i + 5] == xs[i]
      {
        if i > 0 {
          assert xs[1..][i - 1] == xs[i];
          assert j[6 * i..6 * i + 5] == tail[6 * (i - 1)..6 * (i - 1) + 5];
        }
      }
    }
  }

  /** Joining five-character cells puts the separator after every cell but
      the last, at character 6i+5. */
  lemma {:induction false} JoinSeparators(xs: seq<string>, sep: char)
    requires forall i :: 0 <= i < |xs| ==> |xs[i]| == 5
    ensures forall i :: 0 <= i < |xs| - 1 ==> 6 * i + 5 < |Join(xs, [sep])| && Join(xs, [sep])[6 * i + 5] == sep
  {
    if |xs| > 1 {
      var tail := Join(xs[1..], [sep]);
      var j := Join(xs, [sep]);
      JoinSeparators(xs[1..], sep);
      assert j == xs[0] + [sep] + tail;
      forall i | 0 <= i < |xs| - 1
        ensures 6 * i + 5 < |j| && j[6 * i + 5] == sep
      {
        if i > 0 {
          assert j[6 * i + 5] == tail[6 * (i - 1) + 5];
        }
      }
    }
  }

  /** The joining space of the dump: after every cell but the last. */
  lemma ListToStrSeparators(items: seq<int>)
    requires forall i :: 0 <= i < |items| ==> 0 <= items[i] < 0x10000
    ensures forall i :: 0 <= i < |items| - 1 ==> 6 * i + 5 < |ListToStr(items)| && ListToStr(items)[6 * i + 5] == ' '
  {
    var cells := Cells(items);
    forall i | 0 <= i < |cells|
      ensures |cells[i]| == 5
    {
      assert cells[i] == Cell(items[i]);
    }
    assert ListToStr(items) == Join(cells, [' ']);
    JoinSeparators(cells, ' ');
  }

  /** A 16-bit cell found at position k reads back as its item. */
  lemma CellAt(r: string, k: nat, v: int)
    requires 0 <= v < 0x10000 && k + 5 <= |r| && r[k..k + 5] == Cell(v)
    ensures ValueOf(r[k..k + 4], 16) == v && HexDigits(r[k..k + 4]) && r[k + 4] == ' '
  {
    assert r[k..k + 4] == Cell(v)[..4];
    assert r[k + 4] == Cell(v)[4];
  }

  /** For 16-bit items the dump is a run of six-character slots: characters
      6i to 6i+3 are four hex digits that read back as item i, followed by
      the cell's space and then the joining space, so cells are separated
      by two spaces; the whole has 6n - 1 characters. */
  lemma ListToStrSlots(items: seq<int>)
    requires forall i :: 0 <= i < |items| ==> 0 <= items[i] < 0x10000
    ensures |items| > 0 ==> |ListToStr(items)| == 6 * |items| - 1
    ensures forall i :: 0 <= i < |items| ==>
      6 * i + 5 <= |ListToStr(items)|
      && ValueOf(ListToStr(items)[6 * i..6 * i + 4], 16) == items[i]
      && HexDigits(ListToStr(items)[6 * i..6 * i + 4])
      && ListToStr(items)[6 * i + 4] == ' '
    ensures forall i :: 0 <= i < |items| - 1 ==> ListToStr(items)[6 * i + 5] == ' '
  {
    var cells := Cells(items);
    var r := ListToStr(items);
    assert r == Join(cells, [' ']);
    JoinCells(cells, ' ');
    forall i | 0 <= i < |items|
      ensures 6 * i + 5 <= |r| && ValueOf(r[6 * i..6 * i + 4], 16) == items[i]
        && HexDigits(r[6 * i..6 * i + 4]) && r[6 * i + 4] == ' '
    {
      assert r[6 * i..6 * i + 5] == cells[i] == Cell(items[i]);
      CellAt(r, 6 * i, items[i]);
    }
    ListToStrSeparators(items);
  }
}
