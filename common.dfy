/** Shared vocabulary of the booking model: optional values, sequence filters and
    subsequences, substring search, JavaScript whitespace, and the zero-padded
    "HH:MM" rendering of a time of day given in minutes since midnight. */
module Common {

  datatype Option<+T> = None | Some(value: T)

  // ---------------------------------------------------------------------------
  // Sequences
  // ---------------------------------------------------------------------------

  /** `s.filter(p)`: the elements of `s` satisfying `p`, in their original order. */
  function Filter<T>(s: seq<T>, p: T -> bool): (r: seq<T>)
    ensures |r| <= |s|
    ensures forall i :: 0 <= i < |r| ==> p(r[i])
  {
    if s == [] then [] else (if p(s[0]) then [s[0]] else []) + Filter(s[1..], p)
  }

  /** An element survives the filter exactly when it is in `s` and satisfies `p`. */
  lemma {:induction false} FilterMembership<T>(s: seq<T>, p: T -> bool, x: T)
    ensures x in Filter(s, p) <==> x in s && p(x)
  {
    if s != [] {
      FilterMembership(s[1..], p, x);
      assert s == [s[0]] + s[1..];
    }
  }

  /** `a` can be obtained from `b` by deleting elements, without reordering. */
  predicate IsSubsequence<T(==)>(a: seq<T>, b: seq<T>)
  {
    if a == [] then true
    else if b == [] then false
    else if a[0] == b[0] then IsSubsequence(a[1..], b[1..])
    else IsSubsequence(a, b[1..])
  }

  lemma {:induction false} FilterIsSubsequence<T>(s: seq<T>, p: T -> bool)
    ensures IsSubsequence(Filter(s, p), s)
  {
    if s != [] {
      FilterIsSubsequence(s[1..], p);
      if p(s[0]) {
        assert Filter(s, p) == [s[0]] + Filter(s[1..], p);
        assert Filter(s, p)[1..] == Filter(s[1..], p);
      } else {
        assert Filter(s, p) == Filter(s[1..], p);
        SubsequenceOfTail(Filter(s[1..], p), s);
      }
    }
  }

  /** A subsequence of the tail of `b` is a subsequence of `b`. */
  lemma {:induction false} SubsequenceOfTail<T>(a: seq<T>, b: seq<T>)
    requires b != []
    requires IsSubsequence(a, b[1..])
    ensures IsSubsequence(a, b)
    decreases |a| + |b|
  {
    if a != [] && a[0] == b[0] {
      SubsequenceDropHead(a, b[1..]);
      SubsequenceOfTail(a[1..], b);
    }
  }

  /** Dropping the first element of a subsequence keeps it a subsequence. */
  lemma {:induction false} SubsequenceDropHead<T>(a: seq<T>, c: seq<T>)
    requires a != []
    requires IsSubsequence(a, c)
    ensures IsSubsequence(a[1..], c)
    decreases |a| + |c|
  {
    assert c != [];
    if a[0] == c[0] {
      SubsequenceOfTail(a[1..], c);
    } else {
      SubsequenceDropHead(a, c[1..]);
      SubsequenceOfTail(a[1..], c);
    }
  }

  lemma {:induction false} SubsequenceTransitive<T>(a: seq<T>, b: seq<T>, c: seq<T>)
    requires IsSubsequence(a, b) && IsSubsequence(b, c)
    ensures IsSubsequence(a, c)
    decreases |c|
  {
    if a != [] {
      assert b != [] && c != [];
      if b[0] == c[0] {
        if a[0] == b[0] {
          SubsequenceTransitive(a[1..], b[1..], c[1..]);
        } else {
          SubsequenceTransitive(a, b[1..], c[1..]);
        }
      } else {
        SubsequenceTransitive(a, b, c[1..]);
        if a[0] == c[0] {
          SubsequenceDropHead(a, c[1..]);
        }
      }
    }
  }

  lemma {:induction false} SubsequenceReflexive<T>(a: seq<T>)
    ensures IsSubsequence(a, a)
  {
    if a != [] {
      SubsequenceReflexive(a[1..]);
    }
  }

  /** Filtering twice is filtering once by the conjunction. */
  lemma {:induction false} FilterFilter<T>(s: seq<T>, p: T -> bool, q: T -> bool)
    ensures Filter(Filter(s, p), q) == Filter(s, x => p(x) && q(x))
  {
    if s != [] {
      FilterFilter(s[1..], p, q);
      assert Filter(s, p) == (if p(s[0]) then [s[0]] else []) + Filter(s[1..], p);
      FilterAppend(if p(s[0]) then [s[0]] else [], Filter(s[1..], p), q);
    }
  }

  lemma {:induction false} FilterAppend<T>(a: seq<T>, b: seq<T>, p: T -> bool)
    ensures Filter(a + b, p) == Filter(a, p) + Filter(b, p)
  {
    if a == [] {
      assert a + b == b;
    } else {
      assert (a + b)[1..] == a[1..] + b;
      FilterAppend(a[1..], b, p);
    }
  }

  /** Filters by predicates that agree everywhere agree. */
  lemma {:induction false} FilterEquivalent<T>(s: seq<T>, p: T -> bool, q: T -> bool)
    requires forall x :: p(x) == q(x)
    ensures Filter(s, p) == Filter(s, q)
  {
    if s != [] {
      FilterEquivalent(s[1..], p, q);
    }
  }

  /** Filtering by `p` and then by `q` is filtering once by any `r` meaning `p && q`. */
  lemma FilterConjunction<T>(s: seq<T>, p: T -> bool, q: T -> bool, r: T -> bool)
    requires forall x :: r(x) == (p(x) && q(x))
    ensures Filter(Filter(s, p), q) == Filter(s, r)
  {
    FilterFilter(s, p, q);
    FilterEquivalent(s, x => p(x) && q(x), r);
  }

  /** A filter whose predicate holds everywhere keeps the whole sequence. */
  lemma {:induction false} FilterAll<T>(s: seq<T>, p: T -> bool)
    requires forall i :: 0 <= i < |s| ==> p(s[i])
    ensures Filter(s, p) == s
  {
    if s != [] {
      FilterAll(s[1..], p);
    }
  }

  /** `s.filter(p).length`. */
  function Count<T>(s: seq<T>, p: T -> bool): (n: nat)
    ensures n <= |s|
  {
    |Filter(s, p)|
  }

  lemma {:induction false} FilterMultiplicity<T>(s: seq<T>, p: T -> bool, x: T)
    ensures multiset(Filter(s, p))[x] == if p(x) then multiset(s)[x] else 0
  {
    if s != [] {
      FilterMultiplicity(s[1..], p, x);
      assert s == [s[0]] + s[1..];
    }
  }

  lemma FilterRespectsPermutation<T>(s: seq<T>, t: seq<T>, p: T -> bool)
    requires multiset(s) == multiset(t)
    ensures multiset(Filter(s, p)) == multiset(Filter(t, p))
  {
    var a, b := multiset(Filter(s, p)), multiset(Filter(t, p));
    forall x
      ensures a[x] == b[x]
    {
      FilterMultiplicity(s, p, x);
      FilterMultiplicity(t, p, x);
    }
    MultisetExtensionality(a, b);
  }

  lemma MultisetExtensionality<T>(a: multiset<T>, b: multiset<T>)
    requires forall x :: a[x] == b[x]
    ensures a == b
  {
  }

  /** Non-increasing by `key`. */
  predicate DescendingBy<T>(s: seq<T>, key: T -> int)
  {
    forall i, j :: 0 <= i < j < |s| ==> key(s[i]) >= key(s[j])
  }

  /** Every element of a descending list, and `x` below its head, is at most the head. */
  lemma HeadBoundsRest<T>(x: T, s: seq<T>, key: T -> int, rest: seq<T>)
    requires DescendingBy(s, key) && s != [] && key(x) < key(s[0])
    requires multiset(rest) == multiset(s[1..]) + multiset{x}
    ensures forall j :: 0 <= j < |rest| ==> key(s[0]) >= key(rest[j])
  {
    forall j | 0 <= j < |rest|
      ensures key(s[0]) >= key(rest[j])
    {
      assert rest[j] in multiset(rest);
      if rest[j] != x {
        assert rest[j] in multiset(s[1..]);
        var m :| 0 <= m < |s[1..]| && s[1..][m] == rest[j];
        assert s[m + 1] == rest[j];
      }
    }
  }

  /** A head at least as large as every element of a descending list keeps it descending. */
  lemma ConsDescending<T>(h: T, rest: seq<T>, key: T -> int)
    requires DescendingBy(rest, key)
    requires forall j :: 0 <= j < |rest| ==> key(h) >= key(rest[j])
    ensures DescendingBy([h] + rest, key)
  {
    var r := [h] + rest;
    forall i, j | 0 <= i < j < |r|
      ensures key(r[i]) >= key(r[j])
    {
      assert r[j] == rest[j - 1];
      if i > 0 {
        assert r[i] == rest[i - 1];
      }
    }
  }

  /** Places `x` before the first element whose key is not above its own. */
  function InsertDescending<T>(x: T, s: seq<T>, key: T -> int): (r: seq<T>)
    requires DescendingBy(s, key)
    ensures DescendingBy(r, key)
    ensures multiset(r) == multiset(s) + multiset{x}
  {
    if s == [] || key(x) >= key(s[0]) then
      ConsDescending(x, s, key);
      [x] + s
    else
      var rest := InsertDescending(x, s[1..], key);
      assert s == [s[0]] + s[1..];
      HeadBoundsRest(x, s, key, rest);
      ConsDescending(s[0], rest, key);
      [s[0]] + rest
  }

  /** A stable insertion sort, largest key first. */
  function SortDescending<T>(s: seq<T>, key: T -> int): (r: seq<T>)
    ensures DescendingBy(r, key)
    ensures multiset(r) == multiset(s)
  {
    if s == [] then [] else
      assert s == [s[0]] + s[1..];
      InsertDescending(s[0], SortDescending(s[1..], key), key)
  }

  // ---------------------------------------------------------------------------
  // Strings
  // ---------------------------------------------------------------------------

  predicate IsPrefix(t: string, s: string)
  {
    |t| <= |s| && s[..|t|] == t
  }

  /** `s.includes(t)`. */
  predicate Contains(s: string, t: string)
  {
    IsPrefix(t, s) || (s != [] && Contains(s[1..], t))
  }

  /** The characters ECMAScript's `String.prototype.trim` removes: WhiteSpace and
      LineTerminator code points of the Basic Multilingual Plane. */
  predicate IsJsWhitespace(c: char)
  {
    c == '\t' || c == '\n' || c == '\U{000B}' || c == '\U{000C}' || c == '\r' || c == ' '
    || c == '\U{00A0}' || c == '\U{1680}' || ('\U{2000}' <= c <= '\U{200A}')
    || c == '\U{2028}' || c == '\U{2029}' || c == '\U{202F}' || c == '\U{205F}'
    || c == '\U{3000}' || c == '\U{FEFF}'
  }

  /** `s.trim() === ''`: the string holds nothing but whitespace. */
  predicate IsBlank(s: string)
  {
    forall i :: 0 <= i < |s| ==> IsJsWhitespace(s[i])
  }

  // ---------------------------------------------------------------------------
  // Times of day
  // ---------------------------------------------------------------------------

  const MinutesPerHour: nat := 60

  function DigitChar(d: nat): (c: char)
    requires d < 10
    ensures '0' <= c <= '9'
  {
    ('0' as int + d) as char
  }

  /** `n.toString()` for a natural number. */
  function DecimalString(n: nat): (s: string)
    ensures |s| >= 1
  {
    if n < 10 then [DigitChar(n)] else DecimalString(n / 10) + [DigitChar(n % 10)]
  }

  /** `n.toString().padStart(2, '0')`, with the one- and two-digit cases written out
      (`Pad2IsPadStart` ties it to padding `DecimalString`). */
  function Pad2(n: nat): string
  {
    if n < 10 then ['0', DigitChar(n)]
    else if n < 100 then [DigitChar(n / 10), DigitChar(n % 10)]
    else DecimalString(n)
  }

  /** `Pad2` is `DecimalString` left-padded with '0' to two characters. */
  lemma Pad2IsPadStart(n: nat)
    ensures Pad2(n) == if |DecimalString(n)| < 2 then ['0'] + DecimalString(n) else DecimalString(n)
  {
    if n >= 10 {
      assert DecimalString(n) == DecimalString(n / 10) + [DigitChar(n % 10)];
      if n < 100 {
        assert DecimalString(n / 10) == [DigitChar(n / 10)];
      }
    }
  }

  /** The zero-padded "HH:MM" string of a time of day given in minutes since midnight. */
  function FormatTime(m: nat): (s: string)
    ensures m < 6000 ==> |s| == 5 && s[2] == ':'
  {
    Pad2(m / MinutesPerHour) + ":" + Pad2(m % MinutesPerHour)
  }

  /** Code-unit lexicographic order on strings (what `<` on strings and, for the
      digit-and-colon strings here, `localeCompare` decide). */
  predicate LexLess(s: string, t: string)
  {
    if s == [] then t != []
    else if t == [] then false
    else s[0] < t[0] || (s[0] == t[0] && LexLess(s[1..], t[1..]))
  }

  lemma DigitCharOrder(a: nat, b: nat)
    requires a < 10 && b < 10
    ensures DigitChar(a) < DigitChar(b) <==> a < b
    ensures DigitChar(a) == DigitChar(b) <==> a == b
  {
  }

  /** The four digits of a two-digit-hour time, with their weights. */
  lemma FormatTimeDigits(m: nat)
    requires m < 6000
    ensures FormatTime(m) == [DigitChar(m / 600), DigitChar(m / 60 % 10), ':', DigitChar(m % 60 / 10), DigitChar(m % 10)]
    ensures m == 600 * (m / 600) + 60 * (m / 60 % 10) + 10 * (m % 60 / 10) + m % 10
    ensures m % 60 / 10 < 6
  {
    var h := m / 60;
    assert h < 100;
    assert h / 10 == m / 600;
    assert m % 60 % 10 == m % 10;
  }

  /** Lexicographic order on two strings of five characters, spelled out. */
  lemma LexLessFive(s: string, t: string)
    requires |s| == 5 && |t| == 5
    ensures LexLess(s, t) <==>
      s[0] < t[0] || (s[0] == t[0] && (s[1] < t[1] || (s[1] == t[1] && (s[2] < t[2] || (s[2] == t[2] &&
      (s[3] < t[3] || (s[3] == t[3] && s[4] < t[4])))))))
  {
    var s1, t1 := s[1..], t[1..];
    var s2, t2 := s1[1..], t1[1..];
    var s3, t3 := s2[1..], t2[1..];
    var s4, t4 := s3[1..], t3[1..];
    assert s4[1..] == [] && t4[1..] == [];
    assert LexLess(s4, t4) <==> s4[0] < t4[0];
    assert LexLess(s3, t3) <==> s3[0] < t3[0] || (s3[0] == t3[0] && LexLess(s4, t4));
    assert LexLess(s2, t2) <==> s2[0] < t2[0] || (s2[0] == t2[0] && LexLess(s3, t3));
    assert LexLess(s1, t1) <==> s1[0] < t1[0] || (s1[0] == t1[0] && LexLess(s2, t2));
    assert LexLess(s, t) <==> s[0] < t[0] || (s[0] == t[0] && LexLess(s1, t1));
  }

  /** Numeric order of two times agrees with the order of their digit tuples. */
  lemma DigitTupleOrder(a: int, a1: int, a2: int, a3: int, a4: int, b: int, b1: int, b2: int, b3: int, b4: int)
    requires 0 <= a2 < 10 && 0 <= a3 < 6 && 0 <= a4 < 10 && 0 <= b2 < 10 && 0 <= b3 < 6 && 0 <= b4 < 10
    requires a == 600 * a1 + 60 * a2 + 10 * a3 + a4 && b == 600 * b1 + 60 * b2 + 10 * b3 + b4
    ensures a < b <==> a1 < b1 || (a1 == b1 && (a2 < b2 || (a2 == b2 && (a3 < b3 || (a3 == b3 && a4 < b4)))))
  {
  }

  /** For zero-padded two-digit-hour times, comparing the strings lexically is
      comparing the minutes numerically; so modelling "HH:MM" as minutes loses nothing. */
  lemma FormatTimeOrder(a: nat, b: nat)
    requires a < 6000 && b < 6000
    ensures LexLess(FormatTime(a), FormatTime(b)) <==> a < b
  {
    FormatTimeDigits(a);
    FormatTimeDigits(b);
    LexLessFive(FormatTime(a), FormatTime(b));
    DigitCharOrder(a / 600, b / 600);
    DigitCharOrder(a / 60 % 10, b / 60 % 10);
    DigitCharOrder(a % 60 / 10, b % 60 / 10);
    DigitCharOrder(a % 10, b % 10);
    DigitTupleOrder(a, a / 600, a / 60 % 10, a % 60 / 10, a % 10, b, b / 600, b / 60 % 10, b % 60 / 10, b % 10);
  }

  /** Distinct two-digit-hour times render to distinct strings. */
  lemma FormatTimeInjective(a: nat, b: nat)
    requires a < 6000 && b < 6000 && a != b
    ensures FormatTime(a) != FormatTime(b)
  {
    if a < b { FormatTimeOrder(a, b); } else { FormatTimeOrder(b, a); }
    LexLessIrreflexive(FormatTime(a));
  }

  lemma {:induction false} LexLessIrreflexive(s: string)
    ensures !LexLess(s, s)
  {
    if s != [] {
      LexLessIrreflexive(s[1..]);
    }
  }
}
