/** String helpers with the meaning of the .NET ones the builder relies on:
    `string.Join` and the search for a character. */
module Text {
  import opened Wrappers

  /** Where part `i` starts in `Join(sep, parts)`: after each earlier part
      and the separator that follows it. */
  function Offset(sep: string, parts: seq<string>, i: nat): nat
    requires i <= |parts|
    decreases i, 0
  {
    if i == 0 then 0 else PartEnd(sep, parts, i - 1) + |sep|
  }

  /** Where part `i` ends in `Join(sep, parts)`. */
  function PartEnd(sep: string, parts: seq<string>, i: nat): nat
    requires i < |parts|
    decreases i, 1
  {
    Offset(sep, parts, i) + |parts[i]|
  }

  /** `string.Join(sep, parts)`: the parts in order, with `sep` between
      consecutive parts; the empty list joins to the empty string. */
  function Join(sep: string, parts: seq<string>): (r: string)
    ensures |parts| > 0 ==> |r| == PartEnd(sep, parts, |parts| - 1)
    ensures |parts| > 0 ==> OccursAt(r, 0, parts[0])
    decreases |parts|
  {
    if |parts| == 0 then ""
    else if |parts| == 1 then parts[0]
    else
      PartEndShift(sep, parts, |parts| - 2);
      parts[0] + sep + Join(sep, parts[1..])
  }

  /** An offset in the whole list is the first part and one separator
      more than the matching offset in the tail. */
  lemma {:induction false} OffsetShift(sep: string, parts: seq<string>, i: nat)
    requires 0 < i <= |parts|
    ensures Offset(sep, parts, i) == |parts[0]| + |sep| + Offset(sep, parts[1..], i - 1)
    decreases i
  {
    assert Offset(sep, parts, i) == Offset(sep, parts, i - 1) + |parts[i - 1]| + |sep|;
    if i > 1 {
      OffsetShift(sep, parts, i - 1);
      assert Offset(sep, parts[1..], i - 1) == Offset(sep, parts[1..], i - 2) + |parts[i - 1]| + |sep|;
    }
  }

  /** The same shift for where a part ends. */
  lemma PartEndShift(sep: string, parts: seq<string>, i: nat)
    requires i + 1 < |parts|
    ensures PartEnd(sep, parts, i + 1) == |parts[0]| + |sep| + PartEnd(sep, parts[1..], i)
  {
    OffsetShift(sep, parts, i + 1);
  }

  /** Sum of the lengths of all parts. */
  function TotalLength(parts: seq<string>): nat
  {
    if |parts| == 0 then 0 else TotalLength(parts[..|parts| - 1]) + |parts[|parts| - 1]|
  }

  /** Part `i` starts after the `i` parts before it and `i` separators. */
  lemma {:induction false} OffsetClosedForm(sep: string, parts: seq<string>, i: nat)
    requires i <= |parts|
    ensures Offset(sep, parts, i) == TotalLength(parts[..i]) + i * |sep|
    decreases i
  {
    if i > 0 {
      OffsetClosedForm(sep, parts, i - 1);
      assert parts[..i][..i - 1] == parts[..i - 1];
      assert i * |sep| == (i - 1) * |sep| + |sep|;
    }
  }

  /** The joined text of n >= 1 parts is as long as the parts together
      with n - 1 separators. */
  lemma JoinLength(sep: string, parts: seq<string>)
    requires |parts| > 0
    ensures |Join(sep, parts)| == TotalLength(parts) + (|parts| - 1) * |sep|
  {
    var n := |parts|;
    OffsetClosedForm(sep, parts, n - 1);
    assert parts[..n][..n - 1] == parts[..n - 1];
    assert parts[..n] == parts;
  }

  /** `t` occurs in `s` starting at position `k`. */
  predicate OccursAt(s: string, k: nat, t: string)
  {
    k + |t| <= |s| && s[k..k + |t|] == t
  }

  lemma SliceOfSuffix(s: string, k: nat, a: nat, b: nat)
    requires k <= |s| && a <= b <= |s| - k
    ensures s[k + a..k + b] == s[k..][a..b]
  {
  }

  /** Splitting off the first part: after it and one separator, the text
      continues with the join of the remaining parts. */
  lemma JoinTailAfter(s: string, h: nat, sep: string, parts: seq<string>)
    requires h <= |s| && s[h..] == Join(sep, parts) && |parts| > 1
    ensures h + |parts[0]| + |sep| <= |s|
    ensures s[h + |parts[0]| + |sep|..] == Join(sep, parts[1..])
    ensures OccursAt(s, h, parts[0])
    ensures OccursAt(s, h + |parts[0]|, sep)
  {
    var joined := Join(sep, parts);
    var k := |parts[0]| + |sep|;
    assert joined == parts[0] + sep + Join(sep, parts[1..]);
    assert joined[..|parts[0]|] == parts[0];
    assert joined[|parts[0]|..k] == sep;
    assert joined[k..] == Join(sep, parts[1..]);
    SliceOfSuffix(s, h, 0, |parts[0]|);
    SliceOfSuffix(s, h, |parts[0]|, k);
    assert s[h..][k..] == s[h + k..];
  }

  /** In a text that continues with `Join(sep, parts)` from position `h`
      on, part `i` occurs at `h` plus its offset. */
  lemma {:induction false} PartAfter(s: string, h: nat, sep: string, parts: seq<string>, i: nat)
    requires h <= |s| && s[h..] == Join(sep, parts) && i < |parts|
    ensures OccursAt(s, h + Offset(sep, parts, i), parts[i])
    decreases i
  {
    if i == 0 {
      FirstPartAfter(s, h, sep, parts);
    } else {
      JoinTailAfter(s, h, sep, parts);
      OffsetShift(sep, parts, i);
      PartAfter(s, h + |parts[0]| + |sep|, sep, parts[1..], i - 1);
      OccursMoved(s, h + |parts[0]| + |sep| + Offset(sep, parts[1..], i - 1), h + Offset(sep, parts, i), parts[i]);
    }
  }

  /** The first part stands right at `h`. */
  lemma FirstPartAfter(s: string, h: nat, sep: string, parts: seq<string>)
    requires h <= |s| && s[h..] == Join(sep, parts) && |parts| > 0
    ensures OccursAt(s, h + Offset(sep, parts, 0), parts[0])
  {
    SliceOfSuffix(s, h, 0, |parts[0]|);
  }

  /** In a text that continues with `Join(sep, parts)` from position `h`
      on, `sep` occurs right after every part but the last. */
  lemma {:induction false} SeparatorAfter(s: string, h: nat, sep: string, parts: seq<string>, i: nat)
    requires h <= |s| && s[h..] == Join(sep, parts) && i + 1 < |parts|
    ensures OccursAt(s, h + PartEnd(sep, parts, i), sep)
    decreases i
  {
    JoinTailAfter(s, h, sep, parts);
    if i == 0 {
      assert PartEnd(sep, parts, 0) == |parts[0]|;
    } else {
      PartEndShift(sep, parts, i - 1);
      SeparatorAfter(s, h + |parts[0]| + |sep|, sep, parts[1..], i - 1);
      OccursMoved(s, h + |parts[0]| + |sep| + PartEnd(sep, parts[1..], i - 1), h + PartEnd(sep, parts, i), sep);
    }
  }

  /** In a text that continues with `Join(sep, parts)` from position `h`
      on, the last part ends the text. */
  lemma LastPartEnds(s: string, h: nat, sep: string, parts: seq<string>)
    requires h <= |s| && s[h..] == Join(sep, parts) && |parts| > 0
    ensures h + PartEnd(sep, parts, |parts| - 1) == |s|
  {
  }

  /** Part `i` appears verbatim at `Offset(sep, parts, i)` of the joined text. */
  lemma JoinPartAt(sep: string, parts: seq<string>, i: nat)
    requires i < |parts|
    ensures OccursAt(Join(sep, parts), Offset(sep, parts, i), parts[i])
  {
    var joined := Join(sep, parts);
    assert joined[0..] == joined;
    PartAfter(joined, 0, sep, parts, i);
  }

  /** Exactly `sep` stands between part `i` and part `i + 1`, and part
      `i + 1` starts right after it. */
  lemma JoinSeparatorAt(sep: string, parts: seq<string>, i: nat)
    requires i + 1 < |parts|
    ensures Offset(sep, parts, i + 1) == PartEnd(sep, parts, i) + |sep|
    ensures OccursAt(Join(sep, parts), PartEnd(sep, parts, i), sep)
  {
    var joined := Join(sep, parts);
    assert joined[0..] == joined;
    SeparatorAfter(joined, 0, sep, parts, i);
  }

  /** `s` lays out `parts` the way `string.Join` does: every part at its
      offset, `sep` after every part but the last, and nothing else. */
  ghost predicate LaidOut(s: string, sep: string, parts: seq<string>)
  {
    && |parts| > 0
    && |s| == PartEnd(sep, parts, |parts| - 1)
    && (forall i: nat :: i < |parts| ==> OccursAt(s, Offset(sep, parts, i), parts[i]))
    && (forall i: nat :: i + 1 < |parts| ==> OccursAt(s, PartEnd(sep, parts, i), sep))
  }

  /** The joined text has the layout. */
  lemma JoinIsLaidOut(sep: string, parts: seq<string>)
    requires |parts| > 0
    ensures LaidOut(Join(sep, parts), sep, parts)
  {
    forall i: nat | i < |parts|
      ensures OccursAt(Join(sep, parts), Offset(sep, parts, i), parts[i])
    {
      JoinPartAt(sep, parts, i);
    }
    forall i: nat | i + 1 < |parts|
      ensures OccursAt(Join(sep, parts), PartEnd(sep, parts, i), sep)
    {
      JoinSeparatorAt(sep, parts, i);
    }
  }

  /** The layout determines the text: only the joined text has it. */
  lemma {:induction false} LaidOutIsJoin(s: string, sep: string, parts: seq<string>)
    requires LaidOut(s, sep, parts)
    ensures s == Join(sep, parts)
    decreases |parts|
  {
    assert Offset(sep, parts, 0) == 0;
    assert OccursAt(s, 0, parts[0]);
    if |parts| > 1 {
      assert OccursAt(s, PartEnd(sep, parts, 0), sep);
      LaidOutTail(s, sep, parts);
      var k := |parts[0]| + |sep|;
      LaidOutIsJoin(s[k..], sep, parts[1..]);
      ThreePieces(s, parts[0], sep, s[k..]);
    } else {
      assert s[..|parts[0]|] == s;
    }
  }

  /** A text that starts with `a`, continues with `b` and then has `c` as
      its rest is `a + b + c`. */
  lemma ThreePieces(s: string, a: string, b: string, c: string)
    requires OccursAt(s, 0, a) && OccursAt(s, |a|, b) && s[|a| + |b|..] == c
    ensures s == a + b + c
  {
    assert s == s[..|a|] + s[|a|..|a| + |b|] + s[|a| + |b|..];
  }

  /** Dropping the first part and its separator leaves the layout of the tail. */
  lemma LaidOutTail(s: string, sep: string, parts: seq<string>)
    requires LaidOut(s, sep, parts) && |parts| > 1
    ensures |parts[0]| + |sep| <= |s|
    ensures LaidOut(s[|parts[0]| + |sep|..], sep, parts[1..])
  {
    var tail := parts[1..];
    var k := |parts[0]| + |sep|;
    PartEndShift(sep, parts, |parts| - 2);
    var rest := s[k..];
    forall i: nat | i < |tail|
      ensures OccursAt(rest, Offset(sep, tail, i), tail[i])
    {
      PartInTail(s, sep, parts, i);
    }
    forall i: nat | i + 1 < |tail|
      ensures OccursAt(rest, PartEnd(sep, tail, i), sep)
    {
      SeparatorInTail(s, sep, parts, i);
    }
  }

  /** One part of the layout, seen from the start of the tail. */
  lemma PartInTail(s: string, sep: string, parts: seq<string>, i: nat)
    requires |parts| > 1 && i + 1 < |parts|
    requires |parts[0]| + |sep| <= |s|
    requires OccursAt(s, Offset(sep, parts, i + 1), parts[i + 1])
    ensures OccursAt(s[|parts[0]| + |sep|..], Offset(sep, parts[1..], i), parts[1..][i])
  {
    OffsetShift(sep, parts, i + 1);
    ShiftOccurs(s, |parts[0]| + |sep|, Offset(sep, parts[1..], i), Offset(sep, parts, i + 1), parts[i + 1]);
  }

  /** One separator of the layout, seen from the start of the tail. */
  lemma SeparatorInTail(s: string, sep: string, parts: seq<string>, i: nat)
    requires |parts| > 1 && i + 2 < |parts|
    requires |parts[0]| + |sep| <= |s|
    requires OccursAt(s, PartEnd(sep, parts, i + 1), sep)
    ensures OccursAt(s[|parts[0]| + |sep|..], PartEnd(sep, parts[1..], i), sep)
  {
    PartEndShift(sep, parts, i);
    ShiftOccurs(s, |parts[0]| + |sep|, PartEnd(sep, parts[1..], i), PartEnd(sep, parts, i + 1), sep);
  }

  /** The same occurrence, with its position written another way. */
  lemma OccursMoved(s: string, p: nat, q: nat, t: string)
    requires OccursAt(s, p, t) && p == q
    ensures OccursAt(s, q, t)
  {
  }

  /** An occurrence, as the slice between its two ends. */
  lemma OccursBetween(s: string, start: nat, end: nat, t: string)
    requires OccursAt(s, start, t) && end == start + |t|
    ensures start <= end <= |s| && s[start..end] == t
  {
  }

  /** An occurrence seen from `k` positions further on. */
  lemma ShiftOccurs(s: string, k: nat, a: nat, pos: nat, t: string)
    requires k <= |s| && pos == k + a && OccursAt(s, pos, t)
    ensures OccursAt(s[k..], a, t)
  {
    SliceOfSuffix(s, k, a, a + |t|);
  }

  /** Position of the first `c` in `s`, if any. */
  function FirstIndexOf(s: string, c: char): (r: Option<nat>)
    ensures r.None? <==> c !in s
    ensures r.Some? ==> r.value < |s| && s[r.value] == c && c !in s[..r.value]
  {
    if |s| == 0 then None
    else if s[0] == c then Some(0)
    else
      match FirstIndexOf(s[1..], c)
      case None => None
      case Some(i) =>
        assert s[..i + 1] == [s[0]] + s[1..][..i];
        Some(i + 1)
  }

  /** Position of the last `c` in `s`, if any. */
  function LastIndexOf(s: string, c: char): (r: Option<nat>)
    ensures r.None? <==> c !in s
    ensures r.Some? ==> r.value < |s| && s[r.value] == c && c !in s[r.value + 1..]
  {
    if |s| == 0 then None
    else if s[|s| - 1] == c then Some(|s| - 1)
    else
      var init := s[..|s| - 1];
      assert s == init + [s[|s| - 1]];
      match LastIndexOf(init, c)
      case None => None
      case Some(i) =>
        assert s[i + 1..] == init[i + 1..] + [s[|s| - 1]];
        Some(i)
  }

  /** The first occurrence is the one with no `c` before it. */
  lemma FirstIndexOfIs(s: string, c: char, k: nat)
    requires k < |s| && s[k] == c && c !in s[..k]
    ensures FirstIndexOf(s, c) == Some(k)
  {
    assert s[k] in s;
  }

  /** The last occurrence is the one with no `c` after it. */
  lemma LastIndexOfIs(s: string, c: char, k: nat)
    requires k < |s| && s[k] == c && c !in s[k + 1..]
    ensures LastIndexOf(s, c) == Some(k)
  {
    assert s[k] in s;
  }

  /** `PartAfter` for a caller that already names the part and its start. */
  lemma PartAfterAt(s: string, h: nat, sep: string, parts: seq<string>, i: nat, part: string, start: nat)
    requires h <= |s| && s[h..] == Join(sep, parts)
    requires i < |parts| && part == parts[i] && start == h + Offset(sep, parts, i)
    ensures OccursAt(s, start, part)
    ensures i + 1 == |parts| ==> start + |part| == |s|
  {
    PartAfter(s, h, sep, parts, i);
    if i + 1 == |parts| {
      LastPartEnds(s, h, sep, parts);
    }
  }

  /** `SeparatorAfter` for a caller that already names the positions. */
  lemma SeparatorAfterAt(s: string, h: nat, sep: string, parts: seq<string>, i: nat, end: nat, next: nat)
    requires h <= |s| && s[h..] == Join(sep, parts)
    requires i + 1 < |parts|
    requires end == h + PartEnd(sep, parts, i) && next == h + Offset(sep, parts, i + 1)
    ensures next == end + |sep|
    ensures OccursAt(s, end, sep)
  {
    SeparatorAfter(s, h, sep, parts, i);
  }
}
