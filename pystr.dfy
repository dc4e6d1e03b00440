/** The Python 2 `str` operations the parser relies on, with Python's own
    conventions: `find` and `rfind` answer -1 when the pattern is absent, a
    slice clamps its bounds and reads a negative bound from the end of the
    string, `strip()` removes ASCII whitespace, `lower()` folds ASCII letters
    and `replace` rewrites every non-overlapping occurrence from the left. */
module PyStr {

  /** `p` occurs in `s` starting at index `i` (compared character by character). */
  predicate OccursAt(s: string, p: string, i: nat)
    decreases |p|
  {
    |p| == 0 || (i < |s| && s[i] == p[0] && OccursAt(s, p[1..], i + 1))
  }

  lemma {:induction false} OccursAtSlice(s: string, p: string, i: nat)
    requires i <= |s|
    ensures OccursAt(s, p, i) <==> i + |p| <= |s| && s[i..i + |p|] == p
    decreases |p|
  {
    if |p| > 0 && i < |s| {
      OccursAtSlice(s, p[1..], i + 1);
      if i + |p| <= |s| {
        assert s[i..i + |p|] == [s[i]] + s[i + 1..i + 1 + |p[1..]|];
        assert p == [p[0]] + p[1..];
      }
    }
  }

  /** Python's `p in s` for strings. */
  predicate Contains(s: string, p: string) {
    exists i :: 0 <= i <= |s| && OccursAt(s, p, i)
  }

  lemma ContainsChar(s: string, c: char)
    ensures Contains(s, [c]) <==> c in s
  {
    if c in s {
      var i :| 0 <= i < |s| && s[i] == c;
      assert OccursAt(s, [c], i);
    }
    if Contains(s, [c]) {
      var i :| 0 <= i <= |s| && OccursAt(s, [c], i);
      assert s[i] == c;
    }
  }

  /** Python's `s[0:|p|] == p`. */
  predicate StartsWith(s: string, p: string) {
    OccursAt(s, p, 0)
  }

  function FindFrom(s: string, p: string, i: nat): (r: int)
    requires i <= |s|
    ensures r == -1 || i <= r <= |s|
    decreases |s| - i
  {
    if OccursAt(s, p, i) then i else if i == |s| then -1 else FindFrom(s, p, i + 1)
  }

  /** `FindFrom` answers the first occurrence at or after `i`, or -1 when there is none. */
  lemma {:induction false} FindFromSpec(s: string, p: string, i: nat)
    requires i <= |s|
    ensures var r := FindFrom(s, p, i);
            && (r >= 0 ==> OccursAt(s, p, r))
            && (r == -1 ==> forall k :: i <= k <= |s| ==> !OccursAt(s, p, k))
            && (r >= 0 ==> forall k :: i <= k < r ==> !OccursAt(s, p, k))
    decreases |s| - i
  {
    if !OccursAt(s, p, i) && i < |s| {
      FindFromSpec(s, p, i + 1);
    }
  }

  /** Python's `s.find(p)`: the first index at which `p` occurs, or -1. */
  function Find(s: string, p: string): (r: int)
    ensures r == -1 || (0 <= r && r + |p| <= |s|)
  {
    var r := FindFrom(s, p, 0);
    if r >= 0 then FindFromSpec(s, p, 0); OccursAtSlice(s, p, r); r else r
  }

  /** `find` answers -1 exactly when `p` is absent, and otherwise the first
      index at which `p` occurs. */
  lemma FindSpec(s: string, p: string)
    ensures Find(s, p) == -1 <==> !Contains(s, p)
    ensures Find(s, p) >= 0 ==> s[Find(s, p)..Find(s, p) + |p|] == p && OccursAt(s, p, Find(s, p))
    ensures Find(s, p) >= 0 ==> forall k :: 0 <= k < Find(s, p) ==> !OccursAt(s, p, k)
  {
    FindFromSpec(s, p, 0);
    if Find(s, p) >= 0 {
      OccursAtSlice(s, p, Find(s, p));
    }
  }

  /** A found pattern splits the text into the part before it, the pattern
      and the part after it. */
  lemma FindSplit(s: string, p: string)
    requires Find(s, p) >= 0
    ensures s == s[..Find(s, p)] + p + s[Find(s, p) + |p|..]
  {
    FindSpec(s, p);
    var k := Find(s, p);
    assert s == s[..k] + s[k..k + |p|] + s[k + |p|..];
  }

  /** `find` answers the first occurrence. */
  lemma FindIs(s: string, p: string, i: nat)
    requires OccursAt(s, p, i) && forall k :: 0 <= k < i ==> !OccursAt(s, p, k)
    ensures Find(s, p) == i
  {
    FindSpec(s, p);
    if i > 0 {
      assert !OccursAt(s, p, 0);
    }
  }

  /** `find` answers -1 on a text that lacks the pattern. */
  lemma FindNone(s: string, p: string)
    requires forall k :: 0 <= k <= |s| ==> !OccursAt(s, p, k)
    ensures Find(s, p) == -1
  {
    FindSpec(s, p);
  }

  /** The text before the first occurrence of `p` holds no occurrence of `p`. */
  lemma PrefixBeforeFind(s: string, p: string)
    requires |p| > 0 && Find(s, p) >= 0
    ensures !Contains(s[..Find(s, p)], p)
  {
    FindSpec(s, p);
    var k := Find(s, p);
    if Contains(s[..k], p) {
      var i :| 0 <= i <= k && OccursAt(s[..k], p, i);
      OccursAtSlice(s[..k], p, i);
      assert s[..k][i..i + |p|] == s[i..i + |p|];
      OccursAtSlice(s, p, i);
    }
  }

  /** Cutting `s` after its first occurrence of `p` keeps that occurrence first. */
  lemma FindInPrefix(s: string, p: string, m: nat)
    requires Find(s, p) >= 0 && Find(s, p) + |p| <= m <= |s|
    ensures Find(s[..m], p) == Find(s, p)
  {
    FindSpec(s, p);
    FindSpec(s[..m], p);
    var k := Find(s, p);
    OccursAtSlice(s, p, k);
    OccursAtSlice(s[..m], p, k);
    assert s[..m][k..k + |p|] == s[k..k + |p|];
    forall i | 0 <= i < k ensures !OccursAt(s[..m], p, i) {
      OccursAtSlice(s[..m], p, i);
      if i + |p| <= m {
        assert s[..m][i..i + |p|] == s[i..i + |p|];
        OccursAtSlice(s, p, i);
      }
    }
  }

  function RFindFrom(s: string, p: string, i: nat): (r: int)
    requires i <= |s|
    ensures r == -1 || 0 <= r <= i
    decreases i
  {
    if OccursAt(s, p, i) then i else if i == 0 then -1 else RFindFrom(s, p, i - 1)
  }

  /** `RFindFrom` answers the last occurrence at or before `i`, or -1. */
  lemma {:induction false} RFindFromSpec(s: string, p: string, i: nat)
    requires i <= |s|
    ensures var r := RFindFrom(s, p, i);
            && (r >= 0 ==> OccursAt(s, p, r))
            && (r == -1 ==> forall k :: 0 <= k <= i ==> !OccursAt(s, p, k))
            && (r >= 0 ==> forall k :: r < k <= i ==> !OccursAt(s, p, k))
    decreases i
  {
    if !OccursAt(s, p, i) && i > 0 {
      RFindFromSpec(s, p, i - 1);
    }
  }

  /** Python's `s.rfind(p)`: the last index at which `p` occurs, or -1. */
  function RFind(s: string, p: string): (r: int)
    ensures r == -1 || (0 <= r && r + |p| <= |s|)
  {
    var r := RFindFrom(s, p, |s|);
    if r >= 0 then RFindFromSpec(s, p, |s|); OccursAtSlice(s, p, r); r else r
  }

  /** `rfind` answers -1 exactly when `p` is absent, and otherwise the last
      index at which `p` occurs. */
  lemma RFindSpec(s: string, p: string)
    ensures RFind(s, p) == -1 <==> !Contains(s, p)
    ensures RFind(s, p) >= 0 ==> s[RFind(s, p)..RFind(s, p) + |p|] == p
    ensures RFind(s, p) >= 0 ==> forall k :: RFind(s, p) < k <= |s| ==> !OccursAt(s, p, k)
  {
    RFindFromSpec(s, p, |s|);
    if RFind(s, p) >= 0 {
      OccursAtSlice(s, p, RFind(s, p));
    }
  }

  /** How Python reads one slice bound against a string of length `n`. */
  function Clamp(i: int, n: nat): (k: nat)
    ensures k <= n
    ensures 0 <= i <= n ==> k == i
    ensures -(n as int) <= i < 0 ==> k == n + i
  {
    if i < 0 then (if i + n < 0 then 0 else i + n) else if i > n then n else i
  }

  /** Python's `s[i:j]`. */
  function Slice(s: string, i: int, j: int): (r: string)
    ensures 0 <= i <= j <= |s| ==> r == s[i..j]
    ensures 0 <= j <= i ==> r == []
    ensures 0 < |s| && 0 <= i < |s| && j == -1 ==> r == s[i..|s| - 1]
    ensures |r| <= |s|
  {
    var lo := Clamp(i, |s|);
    var hi := Clamp(j, |s|);
    if lo <= hi then s[lo..hi] else []
  }

  /** The bounds that `Slice` actually reads, so that callers can name them. */
  lemma SliceBounds(s: string, i: int, j: int)
    ensures Clamp(i, |s|) <= Clamp(j, |s|) ==> Slice(s, i, j) == s[Clamp(i, |s|)..Clamp(j, |s|)]
    ensures Clamp(j, |s|) < Clamp(i, |s|) ==> Slice(s, i, j) == []
  {
  }

  /** Python 2's `string.whitespace`: space, tab, newline, vertical tab, form feed, return. */
  predicate IsSpace(c: char) {
    c == ' ' || ('\t' <= c <= '\r')
  }

  function TrimLeft(s: string): (r: string)
    ensures |r| <= |s|
  {
    if s != [] && IsSpace(s[0]) then TrimLeft(s[1..]) else s
  }

  lemma {:induction false} TrimLeftShape(s: string)
    ensures TrimLeft(s) == s[|s| - |TrimLeft(s)|..]
    ensures TrimLeft(s) == [] || !IsSpace(TrimLeft(s)[0])
    ensures forall k :: 0 <= k < |s| - |TrimLeft(s)| ==> IsSpace(s[k])
  {
    if s != [] && IsSpace(s[0]) {
      TrimLeftShape(s[1..]);
    }
  }

  function TrimRight(s: string): (r: string)
    ensures |r| <= |s|
  {
    if s != [] && IsSpace(s[|s| - 1]) then TrimRight(s[..|s| - 1]) else s
  }

  lemma {:induction false} TrimRightShape(s: string)
    ensures TrimRight(s) == s[..|TrimRight(s)|]
    ensures TrimRight(s) == [] || !IsSpace(TrimRight(s)[|TrimRight(s)| - 1])
    ensures forall k :: |TrimRight(s)| <= k < |s| ==> IsSpace(s[k])
  {
    if s != [] && IsSpace(s[|s| - 1]) {
      TrimRightShape(s[..|s| - 1]);
    }
  }

  /** Where the stripped text starts inside `s`. */
  function StripStart(s: string): nat {
    |s| - |TrimLeft(s)|
  }

  /** Python's `s.strip()`: `s` without leading and trailing whitespace. */
  function Strip(s: string): (r: string)
    ensures |r| <= |s|
  {
    TrimRight(TrimLeft(s))
  }

  /** What `Strip` keeps is one piece of `s`; what it removes is whitespace,
      and what it keeps neither starts nor ends with any. */
  lemma StripShape(s: string)
    ensures StripStart(s) + |Strip(s)| <= |s| && Strip(s) == s[StripStart(s)..StripStart(s) + |Strip(s)|]
    ensures Strip(s) == [] || (!IsSpace(Strip(s)[0]) && !IsSpace(Strip(s)[|Strip(s)| - 1]))
    ensures forall k :: 0 <= k < StripStart(s) ==> IsSpace(s[k])
    ensures forall k :: StripStart(s) + |Strip(s)| <= k < |s| ==> IsSpace(s[k])
  {
    TrimLeftShape(s);
    TrimRightShape(TrimLeft(s));
  }

  /** The strip of `s` is `s[i..j]` when only whitespace lies outside it and
      it neither starts nor ends with whitespace. */
  lemma StripIs(s: string, i: nat, j: nat)
    requires i <= j <= |s|
    requires forall k :: 0 <= k < i ==> IsSpace(s[k])
    requires forall k :: j <= k < |s| ==> IsSpace(s[k])
    requires i < j ==> !IsSpace(s[i]) && !IsSpace(s[j - 1])
    ensures Strip(s) == s[i..j]
  {
    StripShape(s);
    var a, n := StripStart(s), |Strip(s)|;
    if i < j {
      assert !IsSpace(s[i]) && !IsSpace(s[j - 1]);
      assert a <= i;
      assert n > 0;
      assert !IsSpace(s[a]) && !IsSpace(s[a + n - 1]);
      assert a == i;
      assert a + n == j;
    } else {
      assert n == 0;
    }
  }

  /** A string with no whitespace at either end is its own strip. */
  lemma StripNoSpace(s: string)
    requires s == [] || (!IsSpace(s[0]) && !IsSpace(s[|s| - 1]))
    ensures Strip(s) == s
  {
    StripIs(s, 0, |s|);
  }

  function LowerChar(c: char): char {
    if 'A' <= c <= 'Z' then (c as int + 32) as char else c
  }

  /** Python 2's `s.lower()` on a byte string: ASCII letters are folded, nothing else changes. */
  function Lower(s: string): (r: string)
    ensures |r| == |s|
  {
    if s == [] then [] else [LowerChar(s[0])] + Lower(s[1..])
  }

  lemma {:induction false} LowerAt(s: string)
    ensures forall k :: 0 <= k < |s| ==> Lower(s)[k] == LowerChar(s[k])
  {
    if s != [] {
      LowerAt(s[1..]);
    }
  }

  /** Python's `s.replace(p, q)`: every non-overlapping occurrence of `p`, from the left, becomes `q`. */
  function Replace(s: string, p: string, q: string): (r: string)
    requires |p| > 0
    ensures !Contains(s, p) ==> r == s
    ensures |q| <= |p| ==> |r| <= |s|
    ensures |q| < |p| && Contains(s, p) ==> |r| < |s|
    decreases |s|
  {
    FindSpec(s, p);
    var k := Find(s, p);
    if k < 0 then s else s[..k] + q + Replace(s[k + |p|..], p, q)
  }

  /** Replacing a single character by a text that lacks it leaves no such character. */
  lemma {:induction false} ReplaceCharGone(s: string, c: char, q: string)
    requires c !in q
    ensures c !in Replace(s, [c], q)
    decreases |s|
  {
    FindSpec(s, [c]);
    var k := Find(s, [c]);
    if k < 0 {
      forall i | 0 <= i < |s| ensures s[i] != c {
        if s[i] == c { assert OccursAt(s, [c], i); }
      }
    } else {
      forall i | 0 <= i < k ensures s[i] != c {
        if s[i] == c { assert OccursAt(s, [c], i); }
      }
      ReplaceCharGone(s[k + 1..], c, q);
      assert Replace(s, [c], q) == s[..k] + q + Replace(s[k + 1..], [c], q);
    }
  }

  /** `a` is a contiguous piece of `b`. */
  predicate IsSubstring(a: string, b: string) {
    exists i, j :: 0 <= i <= j <= |b| && b[i..j] == a
  }

  lemma SliceIsSubstring(s: string, i: int, j: int)
    ensures IsSubstring(Slice(s, i, j), s)
  {
    var lo, hi := Clamp(i, |s|), Clamp(j, |s|);
    if lo <= hi {
      assert s[lo..hi] == Slice(s, i, j);
    } else {
      assert s[0..0] == Slice(s, i, j);
    }
  }

  lemma StripIsSubstring(s: string)
    ensures IsSubstring(Strip(s), s)
  {
    StripShape(s);
    var a := StripStart(s);
    assert s[a..a + |Strip(s)|] == Strip(s);
  }

  lemma SubstringTransitive(a: string, b: string, c: string)
    requires IsSubstring(a, b) && IsSubstring(b, c)
    ensures IsSubstring(a, c)
  {
    var i, j :| 0 <= i <= j <= |b| && b[i..j] == a;
    var k, l :| 0 <= k <= l <= |c| && c[k..l] == b;
    assert |b| == l - k;
    forall t | 0 <= t < j - i ensures c[k + i..k + j][t] == a[t] {
      assert a[t] == b[i + t] == c[k + i + t];
    }
    assert c[k + i..k + j] == a;
  }

  /** Python's `str(n)` for a non-negative integer. */
  function DecimalText(n: nat): (r: string)
    ensures |r| > 0
    ensures forall k :: 0 <= k < |r| ==> '0' <= r[k] <= '9'
    decreases n
  {
    if n < 10 then [Digit(n)] else DecimalText(n / 10) + [Digit(n % 10)]
  }

  function Digit(d: nat): (c: char)
    requires d < 10
    ensures '0' <= c <= '9'
  {
    ((48 + d) as char)
  }

  /** The decimal value of a string of digits. */
  function DecimalValue(s: string): nat
    requires forall k :: 0 <= k < |s| ==> '0' <= s[k] <= '9'
  {
    if s == [] then 0 else DecimalValue(s[..|s| - 1]) * 10 + (s[|s| - 1] as int - 48)
  }

  /** `str(n)` reads back as `n`. */
  lemma {:induction false} DecimalRoundTrip(n: nat)
    ensures DecimalValue(DecimalText(n)) == n
    decreases n
  {
    if n >= 10 {
      DecimalRoundTrip(n / 10);
      var t := DecimalText(n / 10) + [Digit(n % 10)];
      assert t[..|t| - 1] == DecimalText(n / 10);
    }
  }
}
