/** The few Python `str` operations the core relies on: `isspace`, `strip`,
    `startswith`, `find`, `split(sep)`, `join`, `count` and `str(int)`. */
module Text {

  /** Python's `str.isspace` for one character. */
  predicate IsSpace(c: char) {
    c == ' ' || ('\t' <= c <= '\r') || ('\U{1c}' <= c <= '\U{1f}') || c == '\U{85}' || c == '\U{a0}'
    || c == '\U{1680}' || ('\U{2000}' <= c <= '\U{200a}') || c == '\U{2028}' || c == '\U{2029}'
    || c == '\U{202f}' || c == '\U{205f}' || c == '\U{3000}'
  }

  /** Number of whitespace characters at the start of `s`. */
  function LeadingSpaces(s: string): (n: nat)
    ensures n <= |s|
    ensures forall i :: 0 <= i < n ==> IsSpace(s[i])
    ensures n == |s| || !IsSpace(s[n])
  {
    if |s| > 0 && IsSpace(s[0]) then 1 + LeadingSpaces(s[1..]) else 0
  }

  /** Number of whitespace characters at the end of `s`. */
  function TrailingSpaces(s: string): (n: nat)
    ensures n <= |s|
    ensures forall i :: |s| - n <= i < |s| ==> IsSpace(s[i])
    ensures n == |s| || !IsSpace(s[|s| - 1 - n])
  {
    if |s| > 0 && IsSpace(s[|s| - 1]) then 1 + TrailingSpaces(s[..|s| - 1]) else 0
  }

  /** Python's `s.strip()`: the slice of `s` left after removing the whitespace at both ends. */
  function Strip(s: string): (r: string)
    ensures |r| <= |s| - LeadingSpaces(s)
    ensures r == s[LeadingSpaces(s)..LeadingSpaces(s) + |r|]
    ensures r == [] || (!IsSpace(r[0]) && !IsSpace(r[|r| - 1]))
    ensures forall i :: 0 <= i < |s| && !(LeadingSpaces(s) <= i < LeadingSpaces(s) + |r|) ==> IsSpace(s[i])
  {
    var t := s[LeadingSpaces(s)..];
    t[..|t| - TrailingSpaces(t)]
  }

  lemma SliceOfSlice(s: string, a: nat, i: nat, j: nat)
    requires a <= |s| && i <= j <= |s| - a
    ensures s[a..][i..j] == s[a + i..a + j]
  {
  }

  predicate StartsWith(s: string, prefix: string) {
    |prefix| <= |s| && s[..|prefix|] == prefix
  }

  /** `sep` occurs in `s` at index `i`. */
  predicate OccursAt(s: string, sep: string, i: int) {
    0 <= i && i + |sep| <= |s| && s[i..i + |sep|] == sep
  }

  /** Python's `s.find(sep, from)`: the first index at or after `from` where `sep` occurs, or -1. */
  function FindFrom(s: string, sep: string, from: nat): (r: int)
    requires |sep| > 0
    ensures r == -1 || from <= r <= |s| - |sep|
    ensures r >= 0 ==> OccursAt(s, sep, r)
    ensures forall i :: from <= i && (r < 0 || i < r) ==> !OccursAt(s, sep, i)
    decreases |s| - from
  {
    if from + |sep| > |s| then -1
    else if OccursAt(s, sep, from) then from
    else FindFrom(s, sep, from + 1)
  }

  /** Python's `s.find(sep)`: the first index where `sep` occurs, or -1. */
  function Find(s: string, sep: string): (r: int)
    requires |sep| > 0
    ensures r == -1 || 0 <= r <= |s| - |sep|
    ensures r >= 0 ==> OccursAt(s, sep, r)
    ensures forall i :: 0 <= i && (r < 0 || i < r) ==> !OccursAt(s, sep, i)
  {
    FindFrom(s, sep, 0)
  }

  /** The pieces of `s[from..]` between the non-overlapping occurrences of `sep`. */
  function SplitFrom(s: string, sep: string, from: nat): (pieces: seq<string>)
    requires |sep| > 0 && from <= |s|
    ensures |pieces| >= 1
    decreases |s| - from
  {
    var k := FindFrom(s, sep, from);
    if k < 0 then [s[from..]] else [s[from..k]] + SplitFrom(s, sep, k + |sep|)
  }

  /** Python's `s.split(sep)` for a non-empty separator: the pieces between
      the non-overlapping occurrences of `sep`, scanning left to right. */
  function Split(s: string, sep: string): (pieces: seq<string>)
    requires |sep| > 0
    ensures |pieces| >= 1
  {
    SplitFrom(s, sep, 0)
  }

  /** Python's `sep.join(pieces)`. */
  function Join(pieces: seq<string>, sep: string): string
    requires |pieces| >= 1
  {
    if |pieces| == 1 then pieces[0] else pieces[0] + sep + Join(pieces[1..], sep)
  }

  /** Non-overlapping occurrences of `sep` in `s[from..]`, counted from the left. */
  function CountFrom(s: string, sep: string, from: nat): nat
    requires |sep| > 0
    decreases |s| - from
  {
    if from + |sep| > |s| then 0
    else if OccursAt(s, sep, from) then 1 + CountFrom(s, sep, from + |sep|)
    else CountFrom(s, sep, from + 1)
  }

  /** Python's `s.count(sep)`. An independent definition, related to `Split` by `SplitCount`. */
  function Count(s: string, sep: string): nat
    requires |sep| > 0
  {
    CountFrom(s, sep, 0)
  }

  lemma JoinCons(p: string, rest: seq<string>, sep: string)
    requires |rest| >= 1
    ensures Join([p] + rest, sep) == p + sep + Join(rest, sep)
  {
    assert ([p] + rest)[1..] == rest;
  }

  lemma JoinThree(pieces: seq<string>, sep: string)
    requires |pieces| == 3
    ensures Join(pieces, sep) == pieces[0] + sep + pieces[1] + sep + pieces[2]
  {
    assert pieces[1..][1..] == [pieces[2]];
    assert Join(pieces[1..], sep) == pieces[1] + sep + pieces[2];
  }

  /** The last piece of a join follows the join of the others. */
  lemma {:induction false} JoinSnoc(pieces: seq<string>, sep: string)
    requires |pieces| >= 2
    ensures Join(pieces, sep) == Join(pieces[..|pieces| - 1], sep) + sep + pieces[|pieces| - 1]
    decreases |pieces|
  {
    var n := |pieces|;
    if n == 2 {
      assert pieces[1..] == [pieces[1]];
      assert pieces[..1] == [pieces[0]];
    } else {
      var init := pieces[..n - 1];
      JoinSnoc(pieces[1..], sep);
      assert pieces[1..][..n - 2] == init[1..];
      assert init[0] == pieces[0];
    }
  }

  lemma AroundOccurrence(s: string, sep: string, from: nat, k: int)
    requires from <= k && OccursAt(s, sep, k)
    ensures s[from..] == s[from..k] + sep + s[k + |sep|..]
  {
    assert s[from..] == s[from..k] + s[k..k + |sep|] + s[k + |sep|..];
  }

  lemma JoinAround(s: string, sep: string, from: nat, k: int, rest: seq<string>)
    requires from <= k && OccursAt(s, sep, k)
    requires |rest| >= 1 && Join(rest, sep) == s[k + |sep|..]
    ensures Join([s[from..k]] + rest, sep) == s[from..]
  {
    calc {
      Join([s[from..k]] + rest, sep);
      == { JoinCons(s[from..k], rest, sep); }
      s[from..k] + sep + Join(rest, sep);
      ==
      s[from..k] + sep + s[k + |sep|..];
      == { AroundOccurrence(s, sep, from, k); }
      s[from..];
    }
  }

  lemma {:induction false} SplitFromJoin(s: string, sep: string, from: nat)
    requires |sep| > 0 && from <= |s|
    ensures Join(SplitFrom(s, sep, from), sep) == s[from..]
    decreases |s| - from
  {
    var k := FindFrom(s, sep, from);
    if k >= 0 {
      SplitFromJoin(s, sep, k + |sep|);
      SplitFromJoinStep(s, sep, from);
    } else {
      SplitFromLast(s, sep, from);
    }
  }

  /** The last step of `SplitFrom`: no occurrence from `from` on leaves one piece. */
  lemma SplitFromLast(s: string, sep: string, from: nat)
    requires |sep| > 0 && from <= |s| && FindFrom(s, sep, from) < 0
    ensures SplitFrom(s, sep, from) == [s[from..]]
  {
  }

  lemma SplitFromJoinStep(s: string, sep: string, from: nat)
    requires |sep| > 0 && from <= |s| && FindFrom(s, sep, from) >= 0
    requires Join(SplitFrom(s, sep, FindFrom(s, sep, from) + |sep|), sep) == s[FindFrom(s, sep, from) + |sep|..]
    ensures Join(SplitFrom(s, sep, from), sep) == s[from..]
  {
    var k := FindFrom(s, sep, from);
    var rest := SplitFrom(s, sep, k + |sep|);
    calc {
      Join(SplitFrom(s, sep, from), sep);
      ==
      Join([s[from..k]] + rest, sep);
      == { JoinAround(s, sep, from, k, rest); }
      s[from..];
    }
  }

  /** Joining the pieces of a split with the same separator gives back the string. */
  lemma SplitJoin(s: string, sep: string)
    requires |sep| > 0
    ensures Join(Split(s, sep), sep) == s
  {
    SplitFromJoin(s, sep, 0);
    assert s[0..] == s;
  }

  /** `t` is `s` with its first `a` characters dropped. */
  predicate DropOf(s: string, a: nat, t: string) {
    a <= |s| && |t| == |s| - a && forall i :: 0 <= i < |t| ==> t[i] == s[a + i]
  }

  lemma DropOfSlice(s: string, a: nat, t: string, i: nat, j: nat)
    requires DropOf(s, a, t) && i <= j <= |t|
    ensures s[a + i..a + j] == t[i..j]
  {
  }

  /** Searching from `a + from` in `s` is searching from `from` in `s[a..]`. */
  lemma {:induction false} FindFromShift(s: string, sep: string, a: nat, t: string, from: nat)
    requires |sep| > 0 && DropOf(s, a, t)
    ensures var k := FindFrom(t, sep, from);
      FindFrom(s, sep, a + from) == if k < 0 then -1 else k + a
    decreases |t| - from
  {
    if from + |sep| <= |t| {
      DropOfSlice(s, a, t, from, from + |sep|);
      if !OccursAt(t, sep, from) {
        FindFromShift(s, sep, a, t, from + 1);
      }
    }
  }

  /** Splitting `s` from `a + from` gives the pieces of `s[a..]` from `from`. */
  lemma {:induction false} SplitFromShift(s: string, sep: string, a: nat, t: string, from: nat)
    requires |sep| > 0 && DropOf(s, a, t) && from <= |t|
    ensures SplitFrom(s, sep, a + from) == SplitFrom(t, sep, from)
    decreases |t| - from
  {
    FindFromShift(s, sep, a, t, from);
    var k := FindFrom(t, sep, from);
    if k >= 0 {
      SplitFromShift(s, sep, a, t, k + |sep|);
      DropOfSlice(s, a, t, from, k);
      SplitFromAt(s, sep, a + from, a + k);
      SplitFromAt(t, sep, from, k);
      ConsCongruence(s[a + from..a + k], t[from..k], SplitFrom(s, sep, a + k + |sep|), SplitFrom(t, sep, k + |sep|));
    } else {
      SplitFromShiftLast(s, sep, a, t, from);
    }
  }

  lemma ConsCongruence(x: string, y: string, xs: seq<string>, ys: seq<string>)
    requires x == y && xs == ys
    ensures [x] + xs == [y] + ys
  {
  }

  /** One step of `SplitFrom`: the piece up to the next occurrence `k`, then the rest. */
  lemma SplitFromAt(s: string, sep: string, from: nat, k: int)
    requires |sep| > 0 && from <= |s| && k == FindFrom(s, sep, from) && k >= 0
    ensures SplitFrom(s, sep, from) == [s[from..k]] + SplitFrom(s, sep, k + |sep|)
  {
  }

  /** The last piece of `SplitFromShift`: no occurrence of `sep` in `t` from `from` on. */
  lemma SplitFromShiftLast(s: string, sep: string, a: nat, t: string, from: nat)
    requires |sep| > 0 && DropOf(s, a, t) && from <= |t|
    requires FindFrom(t, sep, from) < 0 && FindFrom(s, sep, a + from) < 0
    ensures SplitFrom(s, sep, a + from) == SplitFrom(t, sep, from)
  {
    assert SplitFrom(s, sep, a + from) == [s[a + from..]];
    assert SplitFrom(t, sep, from) == [t[from..]];
    DropOfSlice(s, a, t, from, |t|);
    assert s[a + from..] == s[a + from..a + |t|];
    assert t[from..] == t[from..|t|];
  }

  /** `split` scans from the left: with no occurrence the string is the only
      piece; otherwise the first piece ends at the first occurrence and the
      rest is the split of what follows it. */
  lemma SplitAtFirst(s: string, sep: string)
    requires |sep| > 0
    ensures Find(s, sep) < 0 ==> Split(s, sep) == [s]
    ensures Find(s, sep) >= 0 ==>
      Split(s, sep) == [s[..Find(s, sep)]] + Split(s[Find(s, sep) + |sep|..], sep)
  {
    var k := Find(s, sep);
    if k >= 0 {
      SplitFromShift(s, sep, k + |sep|, s[k + |sep|..], 0);
      assert s[0..k] == s[..k];
    } else {
      assert s[0..] == s;
    }
  }

  /** An occurrence inside `s[from..to]` is one in `s`. */
  lemma OccursInSlice(s: string, sep: string, from: nat, to: nat, i: int)
    requires from <= to <= |s|
    requires OccursAt(s[from..to], sep, i)
    ensures OccursAt(s, sep, from + i) && from + i + |sep| <= to
  {
    var t := s[from..to];
    assert forall n :: 0 <= n < |sep| ==> sep[n] == t[i..i + |sep|][n] == s[from + i..from + i + |sep|][n];
  }

  lemma {:induction false} SplitFromPiecesFree(s: string, sep: string, from: nat, j: int, i: int)
    requires |sep| > 0 && from <= |s|
    requires 0 <= j < |SplitFrom(s, sep, from)|
    ensures !OccursAt(SplitFrom(s, sep, from)[j], sep, i)
    decreases |s| - from
  {
    var k := FindFrom(s, sep, from);
    if k >= 0 && j > 0 {
      SplitFromPiecesFree(s, sep, k + |sep|, j - 1, i);
    } else if k >= 0 {
      assert SplitFrom(s, sep, from)[0] == s[from..k];
      if OccursAt(s[from..k], sep, i) {
        OccursInSlice(s, sep, from, k, i);
      }
    } else {
      assert SplitFrom(s, sep, from)[0] == s[from..|s|];
      if OccursAt(s[from..|s|], sep, i) {
        OccursInSlice(s, sep, from, |s|, i);
      }
    }
  }

  /** No piece of a split contains the separator. */
  lemma SplitPiecesFree(s: string, sep: string, j: int, i: int)
    requires |sep| > 0
    requires 0 <= j < |Split(s, sep)|
    ensures !OccursAt(Split(s, sep)[j], sep, i)
  {
    SplitFromPiecesFree(s, sep, 0, j, i);
  }

  /** The first occurrence at or after `from` splits the count: none before it, the rest after it. */
  lemma {:induction false} CountAfterFind(s: string, sep: string, from: nat)
    requires |sep| > 0
    ensures var k := FindFrom(s, sep, from);
      CountFrom(s, sep, from) == if k < 0 then 0 else 1 + CountFrom(s, sep, k + |sep|)
    decreases |s| - from
  {
    if from + |sep| <= |s| && !OccursAt(s, sep, from) {
      CountAfterFind(s, sep, from + 1);
    }
  }

  lemma {:induction false} SplitFromCount(s: string, sep: string, from: nat)
    requires |sep| > 0 && from <= |s|
    ensures |SplitFrom(s, sep, from)| == CountFrom(s, sep, from) + 1
    decreases |s| - from
  {
    CountAfterFind(s, sep, from);
    var k := FindFrom(s, sep, from);
    if k >= 0 {
      SplitFromCount(s, sep, k + |sep|);
    }
  }

  /** A split has one piece more than there are occurrences of the separator. */
  lemma SplitCount(s: string, sep: string)
    requires |sep| > 0
    ensures |Split(s, sep)| == Count(s, sep) + 1
  {
    SplitFromCount(s, sep, 0);
  }

  /** With exactly one occurrence, a split gives what lies before and after it. */
  lemma SplitOnce(s: string, sep: string)
    requires |sep| > 0 && Count(s, sep) == 1
    ensures Find(s, sep) >= 0
    ensures Split(s, sep) == [s[..Find(s, sep)], s[Find(s, sep) + |sep|..]]
  {
    SplitCount(s, sep);
    var k := FindFrom(s, sep, 0);
    assert k >= 0;
    var rest := SplitFrom(s, sep, k + |sep|);
    assert Split(s, sep) == [s[0..k]] + rest;
    assert |rest| == 1;
    assert FindFrom(s, sep, k + |sep|) < 0;
    assert rest == [s[k + |sep|..]];
  }

  function DigitChar(d: nat): char
    requires d < 10
  {
    "0123456789"[d]
  }

  /** Decimal digits of a natural number, without leading zeros. */
  function NatToDecimal(n: nat): (r: string)
    ensures |r| >= 1 && '0' <= r[0] <= '9'
    ensures n >= 10 ==> |r| >= 2
  {
    if n < 10 then [DigitChar(n)] else NatToDecimal(n / 10) + [DigitChar(n % 10)]
  }

  /** Python's `str(i)` for an `int`. */
  function IntToDecimal(i: int): string {
    if i < 0 then "-" + NatToDecimal(-i) else NatToDecimal(i)
  }

  lemma {:induction false} NatToDecimalInjective(a: nat, b: nat)
    requires NatToDecimal(a) == NatToDecimal(b)
    ensures a == b
  {
    if a >= 10 && b >= 10 {
      var ra, rb := NatToDecimal(a), NatToDecimal(b);
      assert ra[|ra| - 1] == DigitChar(a % 10) && rb[|rb| - 1] == DigitChar(b % 10);
      DigitCharInjective(a % 10, b % 10);
      assert ra[..|ra| - 1] == NatToDecimal(a / 10);
      assert rb[..|rb| - 1] == NatToDecimal(b / 10);
      NatToDecimalInjective(a / 10, b / 10);
      SameDigits(a, b);
    } else if a < 10 && b < 10 {
      assert NatToDecimal(a)[0] == DigitChar(a) && NatToDecimal(b)[0] == DigitChar(b);
      DigitCharInjective(a, b);
    }
  }

  lemma DigitCharInjective(x: nat, y: nat)
    requires x < 10 && y < 10 && DigitChar(x) == DigitChar(y)
    ensures x == y
  {
  }

  lemma SameDigits(a: nat, b: nat)
    requires a / 10 == b / 10 && a % 10 == b % 10
    ensures a == b
  {
  }

  /** `str` is one-to-one on integers, so `str(user_id)` identifies a user. */
  lemma IntToDecimalInjective(a: int, b: int)
    requires IntToDecimal(a) == IntToDecimal(b)
    ensures a == b
  {
    if a < 0 && b < 0 {
      NegativeDecimalInjective(a, b);
    } else if a >= 0 && b >= 0 {
      NatToDecimalInjective(a, b);
    } else {
      IntToDecimalSign(a);
      IntToDecimalSign(b);
    }
  }

  lemma NegativeDecimalInjective(a: int, b: int)
    requires a < 0 && b < 0 && IntToDecimal(a) == IntToDecimal(b)
    ensures a == b
  {
    assert NatToDecimal(-a) == IntToDecimal(a)[1..];
    assert NatToDecimal(-b) == IntToDecimal(b)[1..];
    NatToDecimalInjective(-a, -b);
  }

  /** `str(i)` starts with a minus sign exactly when `i` is negative. */
  lemma IntToDecimalSign(i: int)
    ensures |IntToDecimal(i)| > 0 && (IntToDecimal(i)[0] == '-' <==> i < 0)
  {
  }
}
