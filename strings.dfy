/** The string formatting the core relies on: Python's decimal rendering of
    integers (`str(n)`, `'%d' % n`), `sep.join(parts)` and `s.split(c)`. */
module Strings {
  import opened Results

  predicate IsDigit(c: char) { '0' <= c <= '9' }

  predicate AllDigits(s: string) { forall i :: 0 <= i < |s| ==> IsDigit(s[i]) }

  function DigitValue(c: char): nat
    requires IsDigit(c)
  {
    c as int - '0' as int
  }

  function DigitChar(d: nat): (c: char)
    requires d < 10
    ensures IsDigit(c) && DigitValue(c) == d
  {
    ('0' as int + d) as char
  }

  /** The number a non-empty string of decimal digits denotes. */
  function ParseDigits(s: string): nat
    requires AllDigits(s)
  {
    if s == [] then 0 else ParseDigits(s[..|s| - 1]) * 10 + DigitValue(s[|s| - 1])
  }

  /** Python's `str(n)` for a natural number: the shortest decimal numeral. */
  function NatToString(n: nat): (s: string)
    ensures |s| > 0 && AllDigits(s)
    ensures ParseDigits(s) == n
    ensures s[0] == '0' <==> n == 0
    ensures n == 0 ==> s == "0"
  {
    if n < 10 then [DigitChar(n)]
    else
      var front := NatToString(n / 10);
      assert (front + [DigitChar(n % 10)])[..|front|] == front;
      front + [DigitChar(n % 10)]
  }

  /** Reads back what `IntToString` writes: an optional minus sign followed by digits. */
  function ParseInt(s: string): Option<int>
  {
    if |s| > 1 && s[0] == '-' && AllDigits(s[1..]) then Some(-(ParseDigits(s[1..]) as int))
    else if |s| > 0 && AllDigits(s) then Some(ParseDigits(s))
    else None
  }

  /** Python's `str(i)` for an integer. */
  function IntToString(i: int): (s: string)
    ensures ParseInt(s) == Some(i)
    ensures forall k :: 0 <= k < |s| ==> IsDigit(s[k]) || s[k] == '-'
  {
    if i < 0 then
      var digits := NatToString(-i);
      assert ("-" + digits)[1..] == digits;
      "-" + digits
    else NatToString(i)
  }

  /** Python's `str(b)` for a boolean. */
  function BoolToString(b: bool): string
  {
    if b then "True" else "False"
  }

  /** Python's `sep.join(parts)`. */
  function Join(parts: seq<string>, sep: string): string
    decreases |parts|
  {
    if |parts| == 0 then ""
    else if |parts| == 1 then parts[0]
    else parts[0] + sep + Join(parts[1..], sep)
  }

  /** Where `parts[i]` starts inside `Join(parts, sep)`. */
  function Offset(parts: seq<string>, sep: string, i: nat): nat
    requires i <= |parts|
  {
    if i == 0 then 0 else Offset(parts, sep, i - 1) + |parts[i - 1]| + |sep|
  }

  /** Every part stands, unchanged, at its offset in the joined string. */
  lemma {:induction false} JoinAt(parts: seq<string>, sep: string, i: nat)
    requires i < |parts|
    ensures Offset(parts, sep, i) + |parts[i]| <= |Join(parts, sep)|
    ensures Join(parts, sep)[Offset(parts, sep, i)..Offset(parts, sep, i) + |parts[i]|] == parts[i]
    decreases i
  {
    if i == 0 {
      if |parts| > 1 {
        assert Join(parts, sep) == parts[0] + (sep + Join(parts[1..], sep));
      }
    } else {
      var rest := parts[1..];
      JoinAt(rest, sep, i - 1);
      OffsetShift(parts, sep, i);
      var lo := Offset(rest, sep, i - 1);
      assert Join(parts, sep) == (parts[0] + sep) + Join(rest, sep);
      SliceAfter(parts[0] + sep, Join(rest, sep), lo, lo + |parts[i]|);
    }
  }

  /** `piece` is the i-th of `pieces` and stands whole at its offset in
      `text`, their join with `sep`. */
  ghost predicate PieceAt(text: string, pieces: seq<string>, i: nat, piece: string, sep: string)
  {
    && i < |pieces| && pieces[i] == piece
    && Offset(pieces, sep, i) + |piece| <= |text|
    && text[Offset(pieces, sep, i)..Offset(pieces, sep, i) + |piece|] == piece
  }

  lemma JoinPieceAt(parts: seq<string>, sep: string, i: nat)
    requires i < |parts|
    ensures PieceAt(Join(parts, sep), parts, i, parts[i], sep)
  {
    JoinAt(parts, sep, i);
  }

  lemma SliceAfter(pre: string, s: string, lo: nat, hi: nat)
    requires lo <= hi <= |s|
    ensures (pre + s)[|pre| + lo..|pre| + hi] == s[lo..hi]
  {
  }

  lemma {:induction false} OffsetShift(parts: seq<string>, sep: string, i: nat)
    requires 0 < i <= |parts|
    ensures Offset(parts, sep, i) == |parts[0]| + |sep| + Offset(parts[1..], sep, i - 1)
    decreases i
  {
    if i > 1 {
      OffsetShift(parts, sep, i - 1);
    }
  }

  /** `s` without the prefix `pre`, or None when `s` does not start with it. */
  function StripPrefix(pre: string, s: string): Option<string>
  {
    if |pre| <= |s| && s[..|pre|] == pre then Some(s[|pre|..]) else None
  }

  lemma StripPrefixOf(pre: string, rest: string)
    ensures StripPrefix(pre, pre + rest) == Some(rest)
  {
    assert (pre + rest)[..|pre|] == pre;
    assert (pre + rest)[|pre|..] == rest;
  }

  /** Python's `s.split(c)` for a one-character separator: always at least one piece. */
  function SplitOn(s: string, c: char): (r: seq<string>)
    ensures |r| > 0
    decreases |s|
  {
    if |s| == 0 then [""]
    else
      var rest := SplitOn(s[1..], c);
      if s[0] == c then [""] + rest else [[s[0]] + rest[0]] + rest[1..]
  }

  /** A piece free of the separator, followed by the separator, is split off whole. */
  lemma {:induction false} SplitOnPiece(p: string, c: char, t: string)
    requires c !in p
    ensures SplitOn(p + [c] + t, c) == [p] + SplitOn(t, c)
    decreases |p|
  {
    if |p| == 0 {
      assert p + [c] + t == [c] + t;
      assert ([c] + t)[1..] == t;
    } else {
      SplitOnPiece(p[1..], c, t);
      assert (p + [c] + t)[1..] == p[1..] + [c] + t;
      assert [p[0]] + p[1..] == p;
    }
  }

  /** A string free of the separator is one piece. */
  lemma {:induction false} SplitOnWhole(p: string, c: char)
    requires c !in p
    ensures SplitOn(p, c) == [p]
    decreases |p|
  {
    if |p| > 0 {
      SplitOnWhole(p[1..], c);
      assert [p[0]] + p[1..] == p;
    }
  }

  /** Splitting undoes joining when no part holds the separator. */
  lemma {:induction false} SplitJoin(parts: seq<string>, c: char)
    requires |parts| > 0
    requires forall i :: 0 <= i < |parts| ==> c !in parts[i]
    ensures SplitOn(Join(parts, [c]), c) == parts
    decreases |parts|
  {
    if |parts| == 1 {
      SplitOnWhole(parts[0], c);
    } else {
      SplitJoin(parts[1..], c);
      SplitOnPiece(parts[0], c, Join(parts[1..], [c]));
      assert [parts[0]] + parts[1..] == parts;
    }
  }
}
