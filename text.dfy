/** The small part of Python's `str` behaviour the research pipeline relies on:
    `strip()`, `lower()`, substring `in`, `split('\n')` and `str(n)` for a
    natural number. Characters outside ASCII are not case-folded and are never
    treated as whitespace. */
module Text {

  /** The ASCII characters for which Python's `str.isspace()` holds. */
  predicate IsSpace(c: char) {
    c == ' ' || c == '\t' || c == '\n' || c == '\r' || c == '\U{B}' || c == '\U{C}'
    || ('\U{1C}' <= c <= '\U{1F}')
  }

  predicate AllSpace(s: string) {
    forall k :: 0 <= k < |s| ==> IsSpace(s[k])
  }

  /** A string that `strip()` leaves alone: empty, or not starting or ending in whitespace. */
  predicate IsStripped(s: string) {
    s == [] || (!IsSpace(s[0]) && !IsSpace(s[|s| - 1]))
  }

  // ---------------------------------------------------------------- strip()

  /** Index of the first non-whitespace character (|s| if there is none). */
  function TextStart(s: string): (i: nat)
    ensures i <= |s|
    ensures AllSpace(s[..i])
    ensures i < |s| ==> !IsSpace(s[i])
    decreases |s|
  {
    if s == [] || !IsSpace(s[0]) then 0
    else
      var i := 1 + TextStart(s[1..]);
      assert forall k :: 1 <= k < i ==> s[k] == s[1..][k - 1];
      i
  }

  /** One past the index of the last non-whitespace character (0 if there is none). */
  function TextEnd(s: string): (j: nat)
    ensures j <= |s|
    ensures AllSpace(s[j..])
    ensures j > 0 ==> !IsSpace(s[j - 1])
    decreases |s|
  {
    if s == [] || !IsSpace(s[|s| - 1]) then |s|
    else
      var j := TextEnd(s[..|s| - 1]);
      assert forall k :: j <= k < |s| - 1 ==> s[k] == s[..|s| - 1][k];
      j
  }

  /** Python's `s.strip()`: drops leading and trailing whitespace. */
  function Strip(s: string): (r: string)
    ensures IsStripped(r)
    ensures r == [] <==> AllSpace(s)
    ensures forall c :: c in r ==> c in s
  {
    var i, j := TextStart(s), TextEnd(s);
    if i < j then
      assert s[i..j][0] == s[i] && s[i..j][j - i - 1] == s[j - 1];
      s[i..j]
    else
      assert i == |s| by {
        if i < |s| {
          assert false;
        }
      }
      assert s[..i] == s;
      assert s[..0] == [] && s[0..] == s;
      []
  }

  /** `strip()` removes whitespace only, and only at the two ends. */
  lemma StripRemovesOuterSpace(s: string)
    ensures var r := Strip(s);
            exists i :: OccursAt(s, r, i) && AllSpace(s[..i]) && AllSpace(s[i + |r|..])
  {
    var i, j := TextStart(s), TextEnd(s);
    if i < j {
      assert OccursAt(s, Strip(s), i);
    } else {
      assert AllSpace(s[..0]) && s[0..] == s;
      assert OccursAt(s, Strip(s), 0);
    }
  }

  /** `strip()` is the identity on a string with nothing to strip. */
  lemma StripOfStripped(s: string)
    requires IsStripped(s)
    ensures Strip(s) == s
  {
    if s != [] {
      assert TextStart(s) == 0;
      assert TextEnd(s) == |s|;
    }
  }

  // ---------------------------------------------------------------- lower()

  function LowerChar(c: char): char {
    if 'A' <= c <= 'Z' then (c as int + 32) as char else c
  }

  /** Python's `s.lower()` on ASCII letters. */
  function Lower(s: string): (r: string)
    ensures |r| == |s|
  {
    seq(|s|, k requires 0 <= k < |s| => LowerChar(s[k]))
  }

  /** Lowering a string twice is lowering it once. */
  lemma LowerIdempotent(s: string)
    ensures Lower(Lower(s)) == Lower(s)
  {
  }

  /** Lowering commutes with taking a slice. */
  lemma LowerSlice(s: string, i: nat, j: nat)
    requires i <= j <= |s|
    ensures Lower(s)[i..j] == Lower(s[i..j])
  {
  }

  // ---------------------------------------------------------------- `t in s`

  /** `t` occurs in `s` starting at position `i`. */
  predicate OccursAt(s: string, t: string, i: int) {
    0 <= i <= |s| - |t| && s[i..i + |t|] == t
  }

  /** Python's substring test `t in s`, by scanning the start positions of `s`. */
  predicate Contains(s: string, t: string)
    decreases |s|
  {
    t <= s || (s != [] && Contains(s[1..], t))
  }

  /** `t in s` holds exactly when `t` occurs at some position of `s`. */
  lemma {:induction false} ContainsIff(s: string, t: string)
    ensures Contains(s, t) <==> exists i :: OccursAt(s, t, i)
    decreases |s|
  {
    if t <= s {
      assert s[0..0 + |t|] == t;
      assert OccursAt(s, t, 0);
    } else if s == [] {
    } else {
      ContainsIff(s[1..], t);
      if Contains(s[1..], t) {
        var i :| OccursAt(s[1..], t, i);
        assert s[i + 1..i + 1 + |t|] == s[1..][i..i + |t|];
        assert OccursAt(s, t, i + 1);
      } else {
        forall i | OccursAt(s, t, i) ensures false {
          if i == 0 {
            assert false;
          } else {
            forall k | 0 <= k < |t| ensures s[1..][i - 1..i - 1 + |t|][k] == t[k] {
              assert s[i..i + |t|][k] == t[k];
            }
            assert OccursAt(s[1..], t, i - 1);
          }
        }
      }
    }
  }

  // ---------------------------------------------------------------- split('\n')

  /** Python's `s.split('\n')`: always at least one piece; the pieces hold no line break. */
  function SplitLines(s: string): (r: seq<string>)
    ensures |r| >= 1
    ensures forall k :: 0 <= k < |r| ==> '\n' !in r[k]
    decreases |s|
  {
    if s == [] then [""]
    else
      var rest := SplitLines(s[1..]);
      if s[0] == '\n' then [""] + rest
      else [[s[0]] + rest[0]] + rest[1..]
  }

  /** `'\n'.join(ps)`. */
  function JoinLines(ps: seq<string>): string
    decreases |ps|
  {
    if |ps| == 0 then ""
    else if |ps| == 1 then ps[0]
    else ps[0] + "\n" + JoinLines(ps[1..])
  }

  /** Joining the pieces of a split gives back the original string. */
  lemma {:induction false} JoinOfSplit(s: string)
    ensures JoinLines(SplitLines(s)) == s
    decreases |s|
  {
    if s != [] {
      var rest := SplitLines(s[1..]);
      JoinOfSplit(s[1..]);
      if s[0] == '\n' {
        assert SplitLines(s) == [""] + rest;
        assert ([""] + rest)[1..] == rest;
        assert s == "" + "\n" + s[1..];
      } else {
        var r := [[s[0]] + rest[0]] + rest[1..];
        assert SplitLines(s) == r;
        if |rest| == 1 {
          assert JoinLines(rest) == rest[0];
        } else {
          assert r[1..] == rest[1..];
          assert JoinLines(rest) == rest[0] + "\n" + JoinLines(rest[1..]);
        }
      }
    }
  }

  /** A string without line breaks splits to itself. */
  lemma {:induction false} SplitOfLine(a: string)
    requires '\n' !in a
    ensures SplitLines(a) == [a]
    decreases |a|
  {
    if a != [] {
      assert '\n' !in a[1..] by { assert forall c :: c in a[1..] ==> c in a; }
      SplitOfLine(a[1..]);
      assert [a[0]] + a[1..] == a;
    }
  }

  /** A line followed by a line break splits off as the first piece. */
  lemma {:induction false} SplitOfHeadLine(a: string, rest: string)
    requires '\n' !in a
    ensures SplitLines(a + "\n" + rest) == [a] + SplitLines(rest)
    decreases |a|
  {
    var s := a + "\n" + rest;
    if a == [] {
      assert s == "\n" + rest && s[1..] == rest;
    } else {
      assert '\n' !in a[1..] by { assert forall c :: c in a[1..] ==> c in a; }
      assert s[1..] == a[1..] + "\n" + rest;
      SplitOfHeadLine(a[1..], rest);
      assert [a[0]] + a[1..] == a;
    }
  }

  /** Splitting the join of line-break-free pieces gives back the pieces. */
  lemma {:induction false} SplitOfJoin(ps: seq<string>)
    requires |ps| >= 1
    requires forall k :: 0 <= k < |ps| ==> '\n' !in ps[k]
    ensures SplitLines(JoinLines(ps)) == ps
    decreases |ps|
  {
    if |ps| == 1 {
      SplitOfLine(ps[0]);
    } else {
      SplitOfJoin(ps[1..]);
      SplitOfHeadLine(ps[0], JoinLines(ps[1..]));
      assert [ps[0]] + ps[1..] == ps;
    }
  }

  // ---------------------------------------------------------------- str(n)

  predicate IsDigit(c: char) {
    '0' <= c <= '9'
  }

  function DigitChar(d: nat): (c: char)
    requires d < 10
    ensures IsDigit(c) && c as int - '0' as int == d
  {
    ('0' as int + d) as char
  }

  /** Python's `str(n)` for a natural number: its decimal digits, no leading zero. */
  function NatToString(n: nat): (s: string)
    ensures |s| >= 1
    ensures forall k :: 0 <= k < |s| ==> IsDigit(s[k])
    ensures |s| > 1 ==> s[0] != '0'
    decreases n
  {
    if n < 10 then [DigitChar(n)]
    else NatToString(n / 10) + [DigitChar(n % 10)]
  }

  /** Reads a string of decimal digits as a number (the reference for `NatToString`). */
  function ParseDecimal(s: string): nat
    requires forall k :: 0 <= k < |s| ==> IsDigit(s[k])
    decreases |s|
  {
    if s == [] then 0
    else
      assert IsDigit(s[|s| - 1]);
      ParseDecimal(s[..|s| - 1]) * 10 + (s[|s| - 1] as int - '0' as int)
  }

  /** The decimal rendering of a number reads back as that number. */
  lemma {:induction false} ParseOfNatToString(n: nat)
    ensures ParseDecimal(NatToString(n)) == n
    decreases n
  {
    if n >= 10 {
      ParseOfNatToString(n / 10);
      var s := NatToString(n);
      assert s[..|s| - 1] == NatToString(n / 10);
    }
  }
}
