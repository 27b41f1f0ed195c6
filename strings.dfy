/**
  The Python `str` operations the web front end applies to a request and to
  the text it displays: `startswith`, `find`, `replace`, `strip`, `split`,
  and `str(n)` of a length.
 */
module Strings {

  /** `s.startswith(prefix)`: `s` agrees with `prefix` on all of its
      positions. */
  predicate StartsWith(s: string, prefix: string)
    ensures StartsWith(s, prefix) <==>
      |prefix| <= |s| && forall i :: 0 <= i < |prefix| ==> s[i] == prefix[i]
    ensures StartsWith(s, prefix) ==> s == prefix + s[|prefix|..]
  {
    |prefix| <= |s| && s[..|prefix|] == prefix
  }

  /** `pat` occurs in `s` starting at index `k`. */
  predicate OccursAt(s: string, pat: string, k: int)
  {
    0 <= k && k + |pat| <= |s| && s[k..k + |pat|] == pat
  }

  /** `k` is where the leftmost occurrence of `pat` in `s` starts. */
  predicate FirstOccurrence(s: string, pat: string, k: int)
  {
    OccursAt(s, pat, k) && forall j :: 0 <= j < k ==> !OccursAt(s, pat, j)
  }

  /** The search behind `s.find(pat)`, started at index `from`. */
  function FindFrom(s: string, pat: string, from: nat): (r: int)
    requires from <= |s|
    ensures r == -1 ==> forall k :: from <= k ==> !OccursAt(s, pat, k)
    ensures r != -1 ==> from <= r && OccursAt(s, pat, r)
    ensures r != -1 ==> forall k :: from <= k < r ==> !OccursAt(s, pat, k)
    decreases |s| - from
  {
    if from + |pat| > |s| then -1
    else if s[from..from + |pat|] == pat then from
    else FindFrom(s, pat, from + 1)
  }

  /** `s.find(pat)`: the index of the leftmost occurrence, or -1 if none. */
  function Find(s: string, pat: string): (r: int)
    ensures r == -1 <==> forall k :: !OccursAt(s, pat, k)
    ensures r != -1 ==> FirstOccurrence(s, pat, r)
  {
    FindFrom(s, pat, 0)
  }

  /** `s.replace(pat, repl)`: every non-overlapping occurrence of `pat`, scanning
      from the left, is replaced by `repl`. */
  function Replace(s: string, pat: string, repl: string): (r: string)
    requires |pat| > 0
    ensures forall c :: c in r ==> c in s || c in repl
    decreases |s|
  {
    if |s| < |pat| then s
    else if s[..|pat|] == pat then repl + Replace(s[|pat|..], pat, repl)
    else [s[0]] + Replace(s[1..], pat, repl)
  }

  /** An occurrence of `pat` at `j` in `s[1..]` is one at `j + 1` in `s`. */
  lemma OccursShift(s: string, pat: string, j: nat)
    requires |s| >= 1
    ensures OccursAt(s[1..], pat, j) <==> OccursAt(s, pat, j + 1)
  {
    if j + 1 + |pat| <= |s| {
      assert s[1..][j..j + |pat|] == s[j + 1..j + 1 + |pat|];
    }
  }

  /** `replace` leaves everything before the leftmost occurrence as it is,
      puts `repl` in its place and carries on after it. */
  lemma {:induction false} ReplaceAtFirst(s: string, pat: string, repl: string, k: nat)
    requires |pat| > 0 && FirstOccurrence(s, pat, k)
    ensures Replace(s, pat, repl) == s[..k] + repl + Replace(s[k + |pat|..], pat, repl)
    decreases k
  {
    if k == 0 {
      assert s[..|pat|] == pat;
      ReplaceUnfoldMatch(s, pat, repl);
      assert s[..k] + repl == repl;
    } else {
      var t := s[1..];
      FirstOccurrenceShift(s, pat, k);
      ReplaceAtFirst(t, pat, repl, k - 1);
      ReplaceSkip(s, pat, repl, k);
      var rest := Replace(s[k + |pat|..], pat, repl);
      assert Replace(t, pat, repl) == t[..k - 1] + repl + rest;
      Recombine(s[0], Replace(t, pat, repl), t[..k - 1], repl, rest, Replace(s, pat, repl), s[..k]);
    }
  }

  /** One step of `ReplaceAtFirst` past a first character that starts no
      occurrence. */
  lemma ReplaceSkip(s: string, pat: string, repl: string, k: nat)
    requires 0 < |pat| && 0 < k && k + |pat| <= |s| && !OccursAt(s, pat, 0)
    ensures Replace(s, pat, repl) == [s[0]] + Replace(s[1..], pat, repl)
    ensures [s[0]] + s[1..][..k - 1] == s[..k]
    ensures s[1..][k - 1 + |pat|..] == s[k + |pat|..]
  {
    assert s[..|pat|] != pat by {
      assert s[0..|pat|] == s[..|pat|];
    }
    ReplaceUnfoldSkip(s, pat, repl);
    TailSlices(s, k, k + |pat|);
  }

  lemma Recombine(c: char, tail: string, pre: string, mid: string, post: string, whole: string, prefix: string)
    requires whole == [c] + tail && tail == pre + mid + post && prefix == [c] + pre
    ensures whole == prefix + mid + post
  {
  }

  /** `replace` substitutes an occurrence at the very start. */
  lemma ReplaceUnfoldMatch(s: string, pat: string, repl: string)
    requires 0 < |pat| <= |s| && s[..|pat|] == pat
    ensures Replace(s, pat, repl) == repl + Replace(s[|pat|..], pat, repl)
  {
  }

  /** `replace` copies a first character that starts no occurrence. */
  lemma ReplaceUnfoldSkip(s: string, pat: string, repl: string)
    requires 0 < |pat| <= |s| && s[..|pat|] != pat
    ensures Replace(s, pat, repl) == [s[0]] + Replace(s[1..], pat, repl)
  {
  }

  lemma TailSlices(s: string, k: nat, m: nat)
    requires 0 < k <= m <= |s|
    ensures [s[0]] + s[1..][..k - 1] == s[..k]
    ensures s[1..][m - 1..] == s[m..]
  {
  }

  /** Past a first character that starts no occurrence, the leftmost
      occurrence moves one place to the left. */
  lemma FirstOccurrenceShift(s: string, pat: string, k: nat)
    requires 0 < k && FirstOccurrence(s, pat, k)
    ensures FirstOccurrence(s[1..], pat, k - 1)
  {
    forall j | 0 <= j < k - 1 ensures !OccursAt(s[1..], pat, j) {
      OccursShift(s, pat, j);
    }
    OccursShift(s, pat, k - 1);
  }

  /** Where `find` finds nothing, `replace` changes nothing. */
  lemma {:induction false} ReplaceNoOccurrence(s: string, pat: string, repl: string)
    requires |pat| > 0 && Find(s, pat) == -1
    ensures Replace(s, pat, repl) == s
    decreases |s|
  {
    if |s| >= |pat| {
      assert !OccursAt(s, pat, 0);
      var t := s[1..];
      forall j | 0 <= j ensures !OccursAt(t, pat, j) {
        OccursShift(s, pat, j);
      }
      ReplaceNoOccurrence(t, pat, repl);
      assert [s[0]] + t == s;
    }
  }

  /** Replacing a single character is a character-by-character map. */
  lemma {:induction false} ReplaceChar(s: string, c: char, d: char)
    ensures |Replace(s, [c], [d])| == |s|
    ensures forall i :: 0 <= i < |s| ==> Replace(s, [c], [d])[i] == (if s[i] == c then d else s[i])
    decreases |s|
  {
    if |s| > 0 {
      ReplaceChar(s[1..], c, d);
      assert s[..1] == [s[0]];
    }
  }

  /** A subject in which the pattern's first character never appears is left
      as it is. */
  lemma {:induction false} ReplaceAbsentPattern(s: string, pat: string, repl: string)
    requires |pat| > 0 && pat[0] !in s
    ensures Replace(s, pat, repl) == s
    decreases |s|
  {
    if |s| >= |pat| {
      assert s[..|pat|][0] == s[0];
      ReplaceAbsentPattern(s[1..], pat, repl);
      assert [s[0]] + s[1..] == s;
    }
  }

  /** The characters `str.strip()` removes in MicroPython: space, tab, line
      feed, carriage return, vertical tab and form feed. */
  predicate IsSpace(c: char)
  {
    c == ' ' || c == '\t' || c == '\n' || c == '\r' || c == 11 as char || c == 12 as char
  }

  /** The number of leading whitespace characters of `s`. */
  function LeadingSpace(s: string): (n: nat)
    ensures n <= |s|
    ensures forall k :: 0 <= k < n ==> IsSpace(s[k])
    ensures n < |s| ==> !IsSpace(s[n])
  {
    if s != [] && IsSpace(s[0]) then 1 + LeadingSpace(s[1..]) else 0
  }

  /** The index just past the last non-whitespace character of `s`. */
  function TrailingStart(s: string): (m: nat)
    ensures m <= |s|
    ensures forall k :: m <= k < |s| ==> IsSpace(s[k])
    ensures m > 0 ==> !IsSpace(s[m - 1])
  {
    if s != [] && IsSpace(s[|s| - 1]) then TrailingStart(s[..|s| - 1]) else |s|
  }

  /** `s.strip()`: `s` without its leading and trailing whitespace. */
  function Strip(s: string): (r: string)
    ensures r == [] <==> forall k :: 0 <= k < |s| ==> IsSpace(s[k])
    ensures r != [] ==> !IsSpace(r[0]) && !IsSpace(r[|r| - 1])
    ensures LeadingSpace(s) + |r| <= |s|
    ensures r == s[LeadingSpace(s)..LeadingSpace(s) + |r|]
    ensures forall k :: 0 <= k < LeadingSpace(s) ==> IsSpace(s[k])
    ensures forall k :: LeadingSpace(s) + |r| <= k < |s| ==> IsSpace(s[k])
  {
    var n := LeadingSpace(s);
    if n == |s| then [] else s[n..TrailingStart(s)]
  }

  /** The index of the first `c` in `s`, or -1 if there is none. */
  function IndexOf(s: string, c: char): (r: int)
    ensures -1 <= r < |s|
    ensures r == -1 <==> c !in s
    ensures r != -1 ==> s[r] == c && forall j :: 0 <= j < r ==> s[j] != c
  {
    if s == [] then -1
    else if s[0] == c then 0
    else
      var r := IndexOf(s[1..], c);
      if r == -1 then -1 else r + 1
  }

  /** `s.split(sep)` for a one-character separator: the pieces between
      separators, empty ones included, so there is always at least one. */
  function Split(s: string, sep: char): (parts: seq<string>)
    ensures |parts| >= 1
    ensures forall i :: 0 <= i < |parts| ==> sep !in parts[i]
    decreases |s|
  {
    var k := IndexOf(s, sep);
    if k == -1 then [s] else [s[..k]] + Split(s[k + 1..], sep)
  }

  /** `sep.join(parts)`. */
  function Join(parts: seq<string>, sep: char): string
    requires |parts| >= 1
  {
    if |parts| == 1 then parts[0] else parts[0] + [sep] + Join(parts[1..], sep)
  }

  lemma JoinCons(head: string, rest: seq<string>, sep: char)
    requires |rest| >= 1
    ensures Join([head] + rest, sep) == head + [sep] + Join(rest, sep)
  {
  }

  lemma SplitAround(s: string, k: nat)
    requires k < |s|
    ensures s[..k] + [s[k]] + s[k + 1..] == s
  {
  }

  /** Joining the pieces of a split gives back the original text. */
  lemma {:induction false} JoinSplit(s: string, sep: char)
    ensures Join(Split(s, sep), sep) == s
    decreases |s|
  {
    var k := IndexOf(s, sep);
    if k != -1 {
      var rest := s[k + 1..];
      JoinSplit(rest, sep);
      JoinCons(s[..k], Split(rest, sep), sep);
      SplitAround(s, k);
    }
  }

  /** Splitting a join of separator-free pieces gives back the pieces. */
  lemma {:induction false} SplitJoin(parts: seq<string>, sep: char)
    requires |parts| >= 1
    requires forall i :: 0 <= i < |parts| ==> sep !in parts[i]
    ensures Split(Join(parts, sep), sep) == parts
    decreases |parts|
  {
    if |parts| == 1 {
      assert IndexOf(parts[0], sep) == -1;
    } else {
      var head, rest := parts[0], parts[1..];
      assert forall i :: 0 <= i < |rest| ==> sep !in rest[i] by {
        forall i | 0 <= i < |rest| ensures sep !in rest[i] {
          assert rest[i] == parts[i + 1];
        }
      }
      SplitJoin(rest, sep);
      var tail := Join(rest, sep);
      assert Join(parts, sep) == head + [sep] + tail;
      SplitAtFirst(head, tail, sep);
      assert parts == [head] + rest;
    }
  }

  /** Splitting `head + sep + tail` where `head` has no separator yields
      `head`, then the split of `tail`. */
  lemma SplitAtFirst(head: string, tail: string, sep: char)
    requires sep !in head
    ensures Split(head + [sep] + tail, sep) == [head] + Split(tail, sep)
  {
    var s := head + [sep] + tail;
    var k := |head|;
    assert s[..k] == head && s[k] == sep;
    assert IndexOf(s, sep) == k;
    assert s[k + 1..] == tail;
  }

  predicate IsDigit(c: char)
  {
    '0' <= c <= '9'
  }

  function DigitChar(d: nat): (c: char)
    requires d < 10
    ensures IsDigit(c)
  {
    ('0' as int + d) as char
  }

  function DigitValue(c: char): (d: nat)
    requires IsDigit(c)
    ensures d < 10
  {
    c as int - '0' as int
  }

  /** `str(n)` for a non-negative integer: its decimal digits, without
      leading zeros. */
  function Decimal(n: nat): (r: string)
    ensures |r| >= 1
    ensures forall i :: 0 <= i < |r| ==> IsDigit(r[i])
    ensures r[0] == '0' ==> n == 0
  {
    if n < 10 then [DigitChar(n)] else Decimal(n / 10) + [DigitChar(n % 10)]
  }

  /** The number a string of decimal digits denotes. */
  function ParseDecimal(s: string): nat
    requires forall i :: 0 <= i < |s| ==> IsDigit(s[i])
  {
    if s == [] then 0 else 10 * ParseDecimal(s[..|s| - 1]) + DigitValue(s[|s| - 1])
  }

  /** Reading back the decimal form of `n` gives `n`. */
  lemma {:induction false} ParseDecimalOfDecimal(n: nat)
    ensures ParseDecimal(Decimal(n)) == n
  {
    var r := Decimal(n);
    if n >= 10 {
      ParseDecimalOfDecimal(n / 10);
      assert r[..|r| - 1] == Decimal(n / 10);
    }
  }
}
