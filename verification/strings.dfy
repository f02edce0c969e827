/**
 * String operations of Python that the index, the merge, the searcher and the
 * tokenizer rely on: code-point lexicographic order (`<` and `min` on `str`),
 * `str.split(sep)` with a one-character separator, `sep.join(...)`, `str.split()`
 * with no argument, `str.isspace()` and the decimal rendering of `str(n)`.
 */
module Strings {

  /** Python's `str.isspace()` for one character: the set `str.split()`, `str.strip()` and the regex class `\s` agree on. */
  predicate IsSpace(c: char) {
    var n := c as int;
    (9 <= n <= 13) || (28 <= n <= 32) || n == 0x85 || n == 0xA0 || n == 0x1680 ||
    (0x2000 <= n <= 0x200A) || n == 0x2028 || n == 0x2029 || n == 0x202F || n == 0x205F || n == 0x3000
  }

  /** `s.strip() == ""`: the string holds nothing but whitespace. */
  predicate Blank(s: string) {
    forall i :: 0 <= i < |s| ==> IsSpace(s[i])
  }

  // ---------------------------------------------------------------------------
  // Lexicographic order on code points, as Python compares `str` values.
  // ---------------------------------------------------------------------------

  /** `a < b` on Python strings: a proper prefix is smaller, otherwise the first differing character decides. */
  predicate Less(a: string, b: string)
    decreases |a|
  {
    |b| > 0 && (|a| == 0 || a[0] < b[0] || (a[0] == b[0] && Less(a[1..], b[1..])))
  }

  /** `a <= b` on Python strings. */
  predicate LessEq(a: string, b: string) {
    a == b || Less(a, b)
  }

  lemma {:induction false} LessIrreflexive(a: string)
    ensures !Less(a, a)
    decreases |a|
  {
    if |a| > 0 {
      LessIrreflexive(a[1..]);
    }
  }

  lemma {:induction false} LessTransitive(a: string, b: string, c: string)
    requires Less(a, b) && Less(b, c)
    ensures Less(a, c)
    decreases |a|
  {
    if |a| > 0 && a[0] == b[0] && b[0] == c[0] {
      LessTransitive(a[1..], b[1..], c[1..]);
    }
  }

  /** Any two strings are comparable: the order is total. */
  lemma {:induction false} LessTotal(a: string, b: string)
    ensures Less(a, b) || a == b || Less(b, a)
    decreases |a|
  {
    if |a| > 0 && |b| > 0 && a[0] == b[0] {
      LessTotal(a[1..], b[1..]);
      if a[1..] == b[1..] {
        assert a == [a[0]] + a[1..] && b == [b[0]] + b[1..];
      }
    }
  }

  lemma LessAsymmetric(a: string, b: string)
    requires Less(a, b)
    ensures !Less(b, a)
  {
    if Less(b, a) {
      LessTransitive(a, b, a);
      LessIrreflexive(a);
    }
  }

  lemma LessEqTransitive(a: string, b: string, c: string)
    requires LessEq(a, b) && LessEq(b, c)
    ensures LessEq(a, c)
  {
    if a != b && b != c {
      LessTransitive(a, b, c);
    }
  }

  /** Mixed transitivity: a strict step followed by a weak one is strict. */
  lemma LessLessEqTransitive(a: string, b: string, c: string)
    requires Less(a, b) && LessEq(b, c)
    ensures Less(a, c)
  {
    if b != c {
      LessTransitive(a, b, c);
    }
  }

  /** `not (b < a)` means `a <= b`. */
  lemma NotLessIsLessEq(a: string, b: string)
    requires !Less(b, a)
    ensures LessEq(a, b)
  {
    LessTotal(a, b);
  }

  /** A term whose characters all lie above the space sorts its records in its own order:
      appending a space and any tail to both sides keeps `<`. */
  lemma {:induction false} LessExtendsToRecords(a: string, b: string, ra: string, rb: string)
    requires Less(a, b)
    requires forall i :: 0 <= i < |b| ==> ' ' < b[i]
    ensures Less(a + " " + ra, b + " " + rb)
    decreases |a|
  {
    var la, lb := a + " " + ra, b + " " + rb;
    if |a| > 0 && a[0] == b[0] {
      LessExtendsToRecords(a[1..], b[1..], ra, rb);
      assert la[1..] == a[1..] + " " + ra;
      assert lb[1..] == b[1..] + " " + rb;
    }
  }

  // ---------------------------------------------------------------------------
  // str.split(sep) and sep.join(pieces)
  // ---------------------------------------------------------------------------

  /** Python's `s.split(sep)` for a one-character separator: always at least one piece, empty pieces kept. */
  function Split(s: string, sep: char): (pieces: seq<string>)
    ensures |pieces| >= 1
    decreases |s|
  {
    if s == [] then [""]
    else
      var rest := Split(s[1..], sep);
      if s[0] == sep then [""] + rest
      else [[s[0]] + rest[0]] + rest[1..]
  }

  /** Python's `sep.join(pieces)`. */
  function Join(pieces: seq<string>, sep: string): string
    decreases |pieces|
  {
    if pieces == [] then ""
    else if |pieces| == 1 then pieces[0]
    else pieces[0] + sep + Join(pieces[1..], sep)
  }

  /** Joining the pieces of a split gives the string back. */
  lemma {:induction false} JoinSplit(s: string, sep: char)
    ensures Join(Split(s, sep), [sep]) == s
    decreases |s|
  {
    if s != [] {
      JoinSplit(s[1..], sep);
      var rest := Split(s[1..], sep);
      if s[0] == sep {
        assert Split(s, sep) == [""] + rest;
        assert Join([""] + rest, [sep]) == [sep] + Join(rest, [sep]);
      } else {
        assert Split(s, sep) == [[s[0]] + rest[0]] + rest[1..];
        JoinPrepend([s[0]], rest, [sep]);
      }
      assert s == [s[0]] + s[1..];
    }
  }

  /** Prefixing the first piece prefixes the join. */
  lemma JoinPrepend(a: string, rest: seq<string>, sep: string)
    requires rest != []
    ensures Join([a + rest[0]] + rest[1..], sep) == a + Join(rest, sep)
  {
    var p := [a + rest[0]] + rest[1..];
    if |rest| > 1 {
      assert p[1..] == rest[1..];
    }
  }

  /** Splitting the join of separator-free pieces gives the pieces back. */
  lemma {:induction false} SplitJoin(pieces: seq<string>, sep: char)
    requires |pieces| >= 1
    requires forall i, j :: 0 <= i < |pieces| && 0 <= j < |pieces[i]| ==> pieces[i][j] != sep
    ensures Split(Join(pieces, [sep]), sep) == pieces
    decreases |pieces|
  {
    if |pieces| == 1 {
      SplitNoSeparator(pieces[0], sep);
    } else {
      SplitJoin(pieces[1..], sep);
      SplitAround(pieces[0], Join(pieces[1..], [sep]), sep);
      assert pieces == [pieces[0]] + pieces[1..];
    }
  }

  /** A string with no separator splits into itself. */
  lemma {:induction false} SplitNoSeparator(s: string, sep: char)
    requires forall j :: 0 <= j < |s| ==> s[j] != sep
    ensures Split(s, sep) == [s]
    decreases |s|
  {
    if s != [] {
      SplitNoSeparator(s[1..], sep);
      assert s == [s[0]] + s[1..];
    }
  }

  /** The first separator of `a + [sep] + b` ends the first piece. */
  lemma {:induction false} SplitAround(a: string, b: string, sep: char)
    requires forall j :: 0 <= j < |a| ==> a[j] != sep
    ensures Split(a + [sep] + b, sep) == [a] + Split(b, sep)
    decreases |a|
  {
    var s := a + [sep] + b;
    if a == [] {
      assert s[1..] == b;
    } else {
      SplitAround(a[1..], b, sep);
      assert s[1..] == a[1..] + [sep] + b;
      assert a == [a[0]] + a[1..];
    }
  }

  /** No piece of a split holds the separator. */
  lemma {:induction false} SplitPiecesFree(s: string, sep: char)
    ensures forall i, j :: 0 <= i < |Split(s, sep)| && 0 <= j < |Split(s, sep)[i]| ==> Split(s, sep)[i][j] != sep
    decreases |s|
  {
    if s != [] {
      SplitPiecesFree(s[1..], sep);
      var rest := Split(s[1..], sep);
      var pieces := Split(s, sep);
      forall i, j | 0 <= i < |pieces| && 0 <= j < |pieces[i]|
        ensures pieces[i][j] != sep
      {
        if s[0] == sep {
          assert pieces[i][j] == rest[i - 1][j];
        } else if i == 0 {
          if j > 0 {
            assert pieces[0][j] == rest[0][j - 1];
          }
        } else {
          assert pieces[i][j] == rest[i][j];
        }
      }
    }
  }

  /** Splitting only cuts: every character of every piece is a character of the string. */
  lemma {:induction false} SplitChars(s: string, sep: char)
    ensures forall i, j :: 0 <= i < |Split(s, sep)| && 0 <= j < |Split(s, sep)[i]| ==> Split(s, sep)[i][j] in s
    decreases |s|
  {
    if s != [] {
      SplitChars(s[1..], sep);
      var rest := Split(s[1..], sep);
      var pieces := Split(s, sep);
      forall i, j | 0 <= i < |pieces| && 0 <= j < |pieces[i]|
        ensures pieces[i][j] in s
      {
        if s[0] == sep {
          assert pieces[i][j] == rest[i - 1][j];
        } else if i == 0 {
          if j > 0 {
            assert pieces[0][j] == rest[0][j - 1];
          }
        } else {
          assert pieces[i][j] == rest[i][j];
        }
      }
    }
  }

  // ---------------------------------------------------------------------------
  // str.split() with no argument
  // ---------------------------------------------------------------------------

  /** The longest prefix of `s` that holds no whitespace. */
  function Word(s: string): (w: string)
    ensures |w| <= |s| && w == s[..|w|]
    ensures forall i :: 0 <= i < |w| ==> !IsSpace(w[i])
    ensures |w| < |s| ==> IsSpace(s[|w|])
    decreases |s|
  {
    if s == [] || IsSpace(s[0]) then [] else [s[0]] + Word(s[1..])
  }

  /** Python's `s.split()`: maximal runs of non-whitespace, in order. */
  function Fields(s: string): (fields: seq<string>)
    ensures forall i :: 0 <= i < |fields| ==> fields[i] != []
    ensures forall i, j :: 0 <= i < |fields| && 0 <= j < |fields[i]| ==> !IsSpace(fields[i][j])
    decreases |s|
  {
    if s == [] then []
    else if IsSpace(s[0]) then Fields(s[1..])
    else
      var w := Word(s);
      [w] + Fields(s[|w|..])
  }

  /** A term: non-empty, every character above the space and none of them whitespace. */
  predicate WellFormedTerm(t: string) {
    t != [] && forall i :: 0 <= i < |t| ==> ' ' < t[i] && !IsSpace(t[i])
  }

  /** A record line: a well-formed term, then a space, then anything. */
  predicate WellFormedRecord(line: string) {
    var w := Word(line);
    WellFormedTerm(w) && |w| < |line| && line[|w|] == ' '
  }

  /** The first whitespace-separated field of a line that has one. */
  function FirstField(line: string): string
    requires Fields(line) != []
  {
    Fields(line)[0]
  }

  /** A record written as `term + " " + rest` starts with that term, and its first field is the term. */
  lemma {:induction false} RecordStartsWithTerm(t: string, rest: string)
    requires WellFormedTerm(t)
    ensures Word(t + " " + rest) == t
    ensures WellFormedRecord(t + " " + rest)
    ensures Fields(t + " " + rest) != [] && FirstField(t + " " + rest) == t
  {
    WordOfPrefix(t, " " + rest);
    assert t + " " + rest == t + (" " + rest);
  }

  lemma {:induction false} WordOfPrefix(t: string, rest: string)
    requires forall i :: 0 <= i < |t| ==> !IsSpace(t[i])
    requires rest != [] && IsSpace(rest[0])
    ensures Word(t + rest) == t
    decreases |t|
  {
    if t != [] {
      WordOfPrefix(t[1..], rest);
      assert (t + rest)[1..] == t[1..] + rest;
      assert t == [t[0]] + t[1..];
    }
  }

  /** The first field of a record line is its term. */
  lemma RecordFirstField(line: string)
    requires WellFormedRecord(line)
    ensures Fields(line) != [] && FirstField(line) == Word(line)
  {
  }

  /** Ordering record lines orders their terms: if `l1 <= l2` as lines, the terms obey `t1 <= t2`. */
  lemma RecordOrderOrdersTerms(l1: string, l2: string)
    requires WellFormedRecord(l1) && WellFormedRecord(l2)
    requires LessEq(l1, l2)
    ensures LessEq(Word(l1), Word(l2))
  {
    var w1, w2 := Word(l1), Word(l2);
    if Less(w2, w1) {
      assert l1 == w1 + " " + l1[|w1| + 1..];
      assert l2 == w2 + " " + l2[|w2| + 1..];
      LessExtendsToRecords(w2, w1, l2[|w2| + 1..], l1[|w1| + 1..]);
      if l1 == l2 {
        LessIrreflexive(l1);
      } else {
        LessAsymmetric(l1, l2);
      }
    } else {
      NotLessIsLessEq(w1, w2);
    }
  }

  // ---------------------------------------------------------------------------
  // str(n) for natural numbers
  // ---------------------------------------------------------------------------

  function DigitChar(d: nat): char
    requires d < 10
  {
    "0123456789"[d]
  }

  function DigitValue(c: char): nat {
    if '0' <= c <= '9' then (c as int - '0' as int) as nat else 0
  }

  /** `str(n)`: the decimal digits of `n`, most significant first, no leading zero. */
  function Decimal(n: nat): (s: string)
    ensures |s| >= 1
    ensures forall i :: 0 <= i < |s| ==> '0' <= s[i] <= '9'
    decreases n
  {
    if n < 10 then [DigitChar(n)] else Decimal(n / 10) + [DigitChar(n % 10)]
  }

  /** `int(s)` for a string of decimal digits. */
  function ParseDecimal(s: string): nat
    decreases |s|
  {
    if s == [] then 0 else 10 * ParseDecimal(s[..|s| - 1]) + DigitValue(s[|s| - 1])
  }

  /** Reading back what `Decimal` writes gives the number. */
  lemma {:induction false} DecimalRoundTrip(n: nat)
    ensures ParseDecimal(Decimal(n)) == n
    decreases n
  {
    var s := Decimal(n);
    var d := if n < 10 then n else n % 10;
    DigitRoundTrip(d);
    assert s[|s| - 1] == DigitChar(d);
    if n >= 10 {
      DecimalRoundTrip(n / 10);
      assert s[..|s| - 1] == Decimal(n / 10);
      assert ParseDecimal(s) == 10 * (n / 10) + n % 10;
    } else {
      assert s[..|s| - 1] == [];
    }
  }

  lemma DigitRoundTrip(d: nat)
    requires d < 10
    ensures DigitValue(DigitChar(d)) == d
  {
  }

  /** Different numbers render to different strings. */
  lemma DecimalInjective(m: nat, n: nat)
    requires Decimal(m) == Decimal(n)
    ensures m == n
  {
    DecimalRoundTrip(m);
    DecimalRoundTrip(n);
  }
}
