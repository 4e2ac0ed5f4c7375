/**
 * TextHelper.kt: aligning the second column of a list of string pairs
 * (`prettyJoin`) and numbering a list of strings (`numberedList`).
 */
module TextHelper {
  import opened Wrappers
  import Decimal

  /** Kotlin `repeat(n) { append(' ') }`: nothing at all when n is not positive. */
  function Spaces(n: int): (s: string)
    ensures |s| == if n > 0 then n else 0
    ensures forall i :: 0 <= i < |s| ==> s[i] == ' '
    decreases n
  {
    if n <= 0 then "" else Spaces(n - 1) + " "
  }

  /** `maxOfOrNull { it.first.length } ?: 0`. */
  function MaxLength(pairs: seq<(string, Option<string>)>): (m: nat)
    ensures forall i :: 0 <= i < |pairs| ==> |pairs[i].0| <= m
    ensures pairs == [] ==> m == 0
    ensures pairs != [] ==> exists i :: 0 <= i < |pairs| && |pairs[i].0| == m
  {
    if pairs == [] then 0
    else
      var rest := MaxLength(pairs[..|pairs| - 1]);
      var last := |pairs[|pairs| - 1].0|;
      if last > rest then last else rest
  }

  /** Padding that `prettyJoin` puts after a first of length n to reach the column `width`. */
  function Pad(width: int, n: nat): nat {
    if width > n then width - n else 0
  }

  /** `line` is `first`, then exactly `pad` spaces, then `second`. */
  predicate Padded(line: string, first: string, pad: nat, second: string) {
    && |line| == |first| + pad + |second|
    && line[..|first|] == first
    && (forall k :: |first| <= k < |first| + pad ==> line[k] == ' ')
    && line[|first| + pad..] == second
  }

  /** One line of `prettyJoin`: the first alone, or the pair with the second at `width`. */
  function Line(p: (string, Option<string>), width: int): string {
    if p.1.None? then p.0 else p.0 + Spaces(width - |p.0|) + p.1.value
  }

  lemma LinePadded(p: (string, Option<string>), width: int)
    requires p.1.Some?
    ensures Padded(Line(p, width), p.0, Pad(width, |p.0|), p.1.value)
  {
    var line := Line(p, width);
    var pad := Pad(width, |p.0|);
    assert |Spaces(width - |p.0|)| == pad;
    assert line[..|p.0|] == p.0;
    assert line[|p.0| + pad..] == p.1.value;
  }

  /** Kotlin `prettyJoin(minSpace)`. */
  function PrettyJoin(pairs: seq<(string, Option<string>)>, minSpace: int): (r: seq<string>)
    ensures |r| == |pairs|
    ensures forall i :: 0 <= i < |pairs| && pairs[i].1.None? ==> r[i] == pairs[i].0
    ensures forall i :: 0 <= i < |pairs| && pairs[i].1.Some? ==>
      Padded(r[i], pairs[i].0, Pad(MaxLength(pairs) + minSpace, |pairs[i].0|), pairs[i].1.value)
  {
    var width := MaxLength(pairs) + minSpace;
    var r := seq(|pairs|, i requires 0 <= i < |pairs| => Line(pairs[i], width));
    assert forall i :: 0 <= i < |pairs| && pairs[i].1.Some? ==>
      Padded(r[i], pairs[i].0, Pad(width, |pairs[i].0|), pairs[i].1.value) by {
      forall i | 0 <= i < |pairs| && pairs[i].1.Some?
        ensures Padded(r[i], pairs[i].0, Pad(width, |pairs[i].0|), pairs[i].1.value)
      {
        LinePadded(pairs[i], width);
      }
    }
    r
  }

  /**
   * With a non-negative `minSpace`, every second element starts at the same column,
   * `MaxLength + minSpace`, and at least `minSpace` spaces precede it.
   */
  lemma PrettyJoinAligned(pairs: seq<(string, Option<string>)>, minSpace: int, i: int)
    requires minSpace >= 0 && 0 <= i < |pairs| && pairs[i].1.Some?
    ensures var line := PrettyJoin(pairs, minSpace)[i];
      var col := MaxLength(pairs) + minSpace;
      && col - |pairs[i].0| >= minSpace
      && |line| == col + |pairs[i].1.value|
      && line[..|pairs[i].0|] == pairs[i].0
      && (forall k :: |pairs[i].0| <= k < col ==> line[k] == ' ')
      && line[col..] == pairs[i].1.value
  {
    var r := PrettyJoin(pairs, minSpace);
    assert Padded(r[i], pairs[i].0, Pad(MaxLength(pairs) + minSpace, |pairs[i].0|), pairs[i].1.value);
  }

  /** The label "n." that `numberedList` puts before the n-th string. */
  function Label(n: nat): (s: string)
    ensures |s| >= 2 && s[|s| - 1] == '.'
    ensures s[..|s| - 1] == Decimal.IntToString(n)
  {
    Decimal.IntToString(n) + "."
  }

  function Numbered(ss: seq<string>): (pairs: seq<(string, Option<string>)>)
    ensures |pairs| == |ss|
    ensures forall i :: 0 <= i < |ss| ==> pairs[i] == (Label(i + 1), Some(ss[i]))
  {
    seq(|ss|, i requires 0 <= i < |ss| => (Label(i + 1), Some(ss[i])))
  }

  /** Kotlin `numberedList()`: `mapIndexed { i, s -> "${i + 1}." to s }.prettyJoin()`. */
  function NumberedList(ss: seq<string>): (r: seq<string>)
    ensures |r| == |ss|
  {
    PrettyJoin(Numbered(ss), 1)
  }

  /**
   * The i-th line of a numbered list is the label "i+1.", at least one space,
   * and the i-th string, which starts at the same column on every line.
   */
  lemma NumberedListLine(ss: seq<string>, i: int)
    requires 0 <= i < |ss|
    ensures var line := NumberedList(ss)[i];
      var col := MaxLength(Numbered(ss)) + 1;
      && col >= |Label(i + 1)| + 1
      && line[..|Label(i + 1)|] == Label(i + 1)
      && (forall k :: |Label(i + 1)| <= k < col ==> line[k] == ' ')
      && line[col..] == ss[i]
  {
    PrettyJoinAligned(Numbered(ss), 1, i);
  }
}
