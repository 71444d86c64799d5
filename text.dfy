/** String helpers shared by the markup compiler and the query engine.
    Strings are sequences of characters; `Split` follows the JavaScript and
    Python behaviour of splitting on a one-character separator. */
module Text {

  predicate StartsWith(s: string, p: string) {
    |p| <= |s| && s[..|p|] == p
  }

  /** JavaScript `s.substr(n)` for a non-negative start: the tail from n, or "" past the end. */
  function Substr(s: string, n: nat): (r: string)
    ensures n <= |s| ==> s[..n] + r == s
    ensures n >= |s| ==> r == ""
  {
    if n <= |s| then s[n..] else ""
  }

  /** `t` repeated `n` times. */
  function Rep(t: string, n: nat): (r: string)
    ensures |r| == n * |t|
  {
    if n == 0 then "" else t + Rep(t, n - 1)
  }

  lemma {:induction false} RepSucc(t: string, n: nat)
    ensures Rep(t, n + 1) == Rep(t, n) + t
  {
    if n > 0 {
      RepSucc(t, n - 1);
      assert Rep(t, n + 1) == t + Rep(t, n) == t + (Rep(t, n - 1) + t);
    }
  }

  function Count(s: string, c: char): nat {
    if |s| == 0 then 0 else (if s[0] == c then 1 else 0) + Count(s[1..], c)
  }

  /** A character that does not occur is counted zero times. */
  lemma {:induction false} CountAbsent(s: string, c: char)
    requires c !in s
    ensures Count(s, c) == 0
  {
    if |s| > 0 {
      assert s[0] != c;
      assert forall i :: 0 <= i < |s| - 1 ==> s[1..][i] == s[i + 1];
      CountAbsent(s[1..], c);
    }
  }

  /** `s.split(d)` for a one-character separator: never empty; "" gives [""]. */
  function Split(s: string, d: char): (parts: seq<string>)
    ensures |parts| >= 1
  {
    if |s| == 0 then [""]
    else
      var rest := Split(s[1..], d);
      if s[0] == d then [""] + rest
      else [[s[0]] + rest[0]] + rest[1..]
  }

  /** `parts.join(d)`: the inverse of `Split`. */
  function Join(parts: seq<string>, d: char): string
    requires |parts| >= 1
  {
    if |parts| == 1 then parts[0] else parts[0] + [d] + Join(parts[1..], d)
  }

  lemma {:induction false} JoinSplit(s: string, d: char)
    ensures Join(Split(s, d), d) == s
  {
    if |s| > 0 {
      var rest := Split(s[1..], d);
      JoinSplit(s[1..], d);
      if s[0] == d {
        assert Split(s, d)[1..] == rest;
      } else {
        var parts := Split(s, d);
        if |rest| == 1 {
          assert parts == [[s[0]] + rest[0]];
        } else {
          assert parts[1..] == rest[1..];
          assert Join(rest, d) == rest[0] + [d] + Join(rest[1..], d);
        }
      }
    }
  }

  lemma {:induction false} SplitPartsFree(s: string, d: char)
    ensures forall i :: 0 <= i < |Split(s, d)| ==> d !in Split(s, d)[i]
  {
    if |s| > 0 {
      SplitPartsFree(s[1..], d);
      var rest := Split(s[1..], d);
      if s[0] != d {
        var parts := Split(s, d);
        forall i | 0 <= i < |parts| ensures d !in parts[i] {
          if i > 0 { assert parts[i] == rest[i]; }
        }
      }
    }
  }

  /** A character absent from the text is absent from every part. */
  lemma {:induction false} SplitPartsWithin(s: string, d: char, c: char)
    requires c !in s
    ensures forall i :: 0 <= i < |Split(s, d)| ==> c !in Split(s, d)[i]
  {
    if |s| > 0 {
      SplitPartsWithin(s[1..], d, c);
      var rest := Split(s[1..], d);
      var parts := Split(s, d);
      forall i | 0 <= i < |parts| ensures c !in parts[i] {
        if s[0] == d {
          if i > 0 { assert parts[i] == rest[i - 1]; }
        } else if i > 0 {
          assert parts[i] == rest[i];
        }
      }
    }
  }

  lemma {:induction false} SplitLength(s: string, d: char)
    ensures |Split(s, d)| == Count(s, d) + 1
  {
    if |s| > 0 {
      SplitLength(s[1..], d);
    }
  }

  /** A text free of the separator is one part. */
  lemma {:induction false} SplitFree(a: string, d: char)
    requires d !in a
    ensures Split(a, d) == [a]
  {
    if |a| > 0 {
      SplitFree(a[1..], d);
      assert a[0] != d;
      assert [a[0]] + a[1..] == a;
    }
  }

  /** Splitting `a + d + b` with `a` free of `d` peels off `a`. */
  lemma {:induction false} SplitAt(a: string, b: string, d: char)
    requires d !in a
    ensures Split(a + [d] + b, d) == [a] + Split(b, d)
  {
    if |a| == 0 {
      assert a + [d] + b == [d] + b;
      assert ([d] + b)[1..] == b;
    } else {
      SplitAt(a[1..], b, d);
      assert (a + [d] + b)[1..] == a[1..] + [d] + b;
      assert [a[0]] + a[1..] == a;
    }
  }

  /** Splitting a join of separator-free parts gives the parts back. */
  lemma {:induction false} SplitJoin(parts: seq<string>, d: char)
    requires |parts| >= 1
    requires forall i :: 0 <= i < |parts| ==> d !in parts[i]
    ensures Split(Join(parts, d), d) == parts
  {
    if |parts| == 1 {
      SplitFree(parts[0], d);
    } else {
      SplitJoin(parts[1..], d);
      SplitAt(parts[0], Join(parts[1..], d), d);
      assert [parts[0]] + parts[1..] == parts;
    }
  }

  /** Python's `word in content` on literal text: some position holds the word. */
  predicate Contains(text: string, word: string) {
    exists k :: 0 <= k <= |text| - |word| && OccursAt(text, word, k)
  }

  predicate OccursAt(text: string, word: string, k: int) {
    0 <= k <= |text| - |word| && text[k..k + |word|] == word
  }

  /** Python `s.replace(p, "")`: removes the non-overlapping occurrences of p found left to right. */
  function RemoveAll(s: string, p: string): (r: string)
    requires |p| > 0
    ensures |r| <= |s|
    ensures forall c :: c in r ==> c in s
    decreases |s|
  {
    if |s| < |p| then s
    else if s[..|p|] == p then RemoveAll(s[|p|..], p)
    else [s[0]] + RemoveAll(s[1..], p)
  }

  /** Removing a one-character pattern removes every occurrence of that character. */
  lemma {:induction false} RemoveAllChar(s: string, c: char)
    ensures c !in RemoveAll(s, [c])
    decreases |s|
  {
    if |s| >= 1 {
      if s[..1] == [c] {
        RemoveAllChar(s[1..], c);
      } else {
        RemoveAllChar(s[1..], c);
        assert s[0] != c;
      }
    }
  }

  /** A pattern that does not occur leaves the text unchanged. */
  lemma {:induction false} RemoveAllAbsent(s: string, p: string)
    requires |p| > 0 && !Contains(s, p)
    ensures RemoveAll(s, p) == s
    decreases |s|
  {
    if |s| >= |p| {
      assert s[0..|p|] == s[..|p|];
      assert !OccursAt(s, p, 0);
      if |s| > 0 {
        if Contains(s[1..], p) {
          var k :| 0 <= k <= |s[1..]| - |p| && OccursAt(s[1..], p, k);
          assert s[k + 1..k + 1 + |p|] == s[1..][k..k + |p|];
          assert OccursAt(s, p, k + 1);
        }
        RemoveAllAbsent(s[1..], p);
        assert [s[0]] + s[1..] == s;
      }
    }
  }

  /** A stretch without the pattern's first character passes through unchanged. */
  lemma {:induction false} RemoveAllSkip(x: string, y: string, p: string)
    requires |p| > 0 && p[0] !in x
    ensures RemoveAll(x + y, p) == x + RemoveAll(y, p)
    decreases |x|
  {
    if |x| > 0 {
      assert (x + y)[1..] == x[1..] + y;
      if |x + y| >= |p| {
        assert (x + y)[..|p|][0] == x[0];
      }
      RemoveAllSkip(x[1..], y, p);
      assert [x[0]] + x[1..] == x;
      AppendAssocText([x[0]], x[1..], RemoveAll(y, p));
    } else {
      assert x + y == y;
    }
  }

  /** An occurrence at the front is dropped. */
  lemma RemoveAllHit(y: string, p: string)
    requires |p| > 0
    ensures RemoveAll(p + y, p) == RemoveAll(y, p)
  {
    assert (p + y)[..|p|] == p;
    assert (p + y)[|p|..] == y;
  }

  /** Text without the pattern's first character is left unchanged. */
  lemma RemoveAllFree(x: string, p: string)
    requires |p| > 0 && p[0] !in x
    ensures RemoveAll(x, p) == x
  {
    RemoveAllSkip(x, "", p);
    assert x + "" == x;
  }

  lemma AppendAssocText(a: string, b: string, c: string)
    ensures (a + b) + c == a + (b + c)
  {
  }

  function DigitChar(d: nat): (c: char)
    requires d < 10
    ensures '0' <= c <= '9' && DigitValue(c) == d
  {
    "0123456789"[d]
  }

  /** The value of a decimal digit character. */
  function DigitValue(c: char): int {
    c as int - '0' as int
  }

  /** The number a string of decimal digits denotes, most significant digit first. */
  function DecimalValue(s: string): int {
    if |s| == 0 then 0 else DecimalValue(s[..|s| - 1]) * 10 + DigitValue(s[|s| - 1])
  }

  /** Decimal rendering of a natural number, as a JavaScript template literal prints it: digits
      only, no leading zero, and reading it back gives the number. */
  function NatToString(n: nat): (r: string)
    ensures |r| >= 1
    ensures forall i :: 0 <= i < |r| ==> '0' <= r[i] <= '9'
    ensures |r| > 1 ==> r[0] != '0'
    ensures DecimalValue(r) == n
  {
    if n < 10 then
      var r := [DigitChar(n)];
      assert r[..0] == [];
      r
    else
      var prefix := NatToString(n / 10);
      var r := prefix + [DigitChar(n % 10)];
      assert r[..|r| - 1] == prefix;
      r
  }

  /** Python `[x for x in parts if len(x)]`: non-empty parts, each taken from `parts`. */
  function NonEmpty(parts: seq<string>): (r: seq<string>)
    ensures forall i :: 0 <= i < |r| ==> |r[i]| > 0
    ensures forall i :: 0 <= i < |r| ==> r[i] in parts
    ensures |r| <= |parts|
  {
    if |parts| == 0 then []
    else if |parts[0]| > 0 then [parts[0]] + NonEmpty(parts[1..])
    else NonEmpty(parts[1..])
  }

  /** Filtering distributes over concatenation, so `NonEmpty` keeps the order of the parts: on
      one part it is that part or nothing, and on a list it is the concatenation of those. */
  lemma {:induction false} NonEmptyAppend(a: seq<string>, b: seq<string>)
    ensures NonEmpty(a + b) == NonEmpty(a) + NonEmpty(b)
  {
    if |a| > 0 {
      assert (a + b)[0] == a[0];
      assert (a + b)[1..] == a[1..] + b;
      NonEmptyAppend(a[1..], b);
    } else {
      assert a + b == b;
    }
  }

  /** Every non-empty part is kept by `NonEmpty`. */
  lemma {:induction false} NonEmptyKeepsAll(parts: seq<string>)
    ensures forall x :: x in parts && |x| > 0 ==> x in NonEmpty(parts)
  {
    if |parts| > 0 {
      NonEmptyKeepsAll(parts[1..]);
      assert forall x :: x in parts ==> x == parts[0] || x in parts[1..];
    }
  }
}
