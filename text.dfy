/** The string operations the script uses: `count`, `split` on one character,
    `join`, `str(i)` for a position, substring tests and quote removal. */
module Text {

  /** `s.count(c)` for a one-character `c`. */
  function Count(s: string, c: char): (n: nat)
    ensures n <= |s|
    ensures n == 0 <==> c !in s
  {
    if s == [] then 0 else (if s[0] == c then 1 else 0) + Count(s[1..], c)
  }

  lemma {:induction false} CountConcat(a: string, b: string, c: char)
    ensures Count(a + b, c) == Count(a, c) + Count(b, c)
  {
    if a != [] {
      assert (a + b)[0] == a[0] && (a + b)[1..] == a[1..] + b;
      CountConcat(a[1..], b, c);
    } else {
      assert a + b == b;
    }
  }

  /** `s.split(c)`: the pieces between occurrences of `c`, empty pieces included. */
  function Split(s: string, c: char): (parts: seq<string>)
    ensures |parts| == Count(s, c) + 1
    ensures forall p :: p in parts ==> c !in p
  {
    if s == [] then [""]
    else
      var rest := Split(s[1..], c);
      if s[0] == c then [""] + rest
      else [[s[0]] + rest[0]] + rest[1..]
  }

  /** `c.join(parts)` for one separator character; the inverse of `Split`. */
  function Join(parts: seq<string>, c: char): string
    requires |parts| >= 1
  {
    if |parts| == 1 then parts[0] else parts[0] + [c] + Join(parts[1..], c)
  }

  /** Splitting then joining on the same character gives the string back. */
  lemma {:induction false} JoinSplit(s: string, c: char)
    ensures Join(Split(s, c), c) == s
  {
    if s != [] {
      JoinSplit(s[1..], c);
      var rest := Split(s[1..], c);
      var parts := Split(s, c);
      if s[0] != c {
        JoinFirst(rest, [s[0]], c);
        assert parts == [[s[0]] + rest[0]] + rest[1..];
        assert [s[0]] + s[1..] == s;
      } else {
        assert parts == [""] + rest;
        assert parts[1..] == rest;
        assert Join(parts, c) == "" + [c] + Join(rest, c);
        assert [c] + s[1..] == s;
      }
    }
  }

  /** Extending the first piece extends the joined text at the front. */
  lemma JoinFirst(parts: seq<string>, pre: string, c: char)
    requires |parts| >= 1
    ensures Join([pre + parts[0]] + parts[1..], c) == pre + Join(parts, c)
  {
    var q := [pre + parts[0]] + parts[1..];
    if |parts| > 1 {
      assert q[1..] == parts[1..];
    }
  }

  /** A string holding `c` is its first piece, `c`, its second piece, and
      whatever follows from the next `c` on. */
  lemma SplitSecond(s: string, c: char)
    requires c in s
    ensures var parts := Split(s, c);
      && |parts| >= 2
      && s == parts[0] + [c] + parts[1] + (if |parts| == 2 then [] else [c] + Join(parts[2..], c))
  {
    JoinSplit(s, c);
    assert Count(s, c) != 0;
    JoinSecond(Split(s, c), c);
  }

  /** Joining at least two pieces: the first, `c`, the second, then the rest. */
  lemma JoinSecond(parts: seq<string>, c: char)
    requires |parts| >= 2
    ensures Join(parts, c) == parts[0] + [c] + parts[1] + (if |parts| == 2 then [] else [c] + Join(parts[2..], c))
  {
    var tail := parts[1..];
    if |parts| > 2 {
      assert tail[1..] == parts[2..];
      assert Join(tail, c) == parts[1] + [c] + Join(parts[2..], c);
      assert parts[0] + [c] + (parts[1] + [c] + Join(parts[2..], c))
          == parts[0] + [c] + parts[1] + ([c] + Join(parts[2..], c));
    } else {
      assert parts[0] + [c] + parts[1] == parts[0] + [c] + parts[1] + [];
    }
  }

  /** A string free of `c` is a single piece. */
  lemma {:induction false} SplitNone(s: string, c: char)
    requires c !in s
    ensures Split(s, c) == [s]
  {
    if s != [] {
      SplitNone(s[1..], c);
      assert [s[0]] + s[1..] == s;
    }
  }

  /** Splitting at one occurrence of `c` concatenates the pieces of both sides. */
  lemma {:induction false} SplitAround(a: string, b: string, c: char)
    ensures Split(a + [c] + b, c) == Split(a, c) + Split(b, c)
  {
    if a == [] {
      assert a + [c] + b == [c] + b;
      SplitCons(c, b, c);
    } else {
      var t := a[1..] + [c] + b;
      assert a + [c] + b == [a[0]] + t;
      assert a == [a[0]] + a[1..];
      SplitAround(a[1..], b, c);
      SplitCons(a[0], t, c);
      SplitCons(a[0], a[1..], c);
      var ra, rb := Split(a[1..], c), Split(b, c);
      if a[0] == c {
        PieceCons(ra, rb);
      } else {
        PieceJoin([a[0]], ra, rb);
      }
    }
  }

  /** One step of `Split`. */
  lemma SplitCons(x: char, t: string, c: char)
    ensures Split([x] + t, c)
         == if x == c then [""] + Split(t, c) else [[x] + Split(t, c)[0]] + Split(t, c)[1..]
  {
    assert ([x] + t)[0] == x && ([x] + t)[1..] == t;
  }

  /** Starting a new piece commutes with appending more pieces. */
  lemma PieceCons(ra: seq<string>, rb: seq<string>)
    ensures [""] + (ra + rb) == ([""] + ra) + rb
  {
  }

  /** Extending the first piece commutes with appending more pieces. */
  lemma PieceJoin(pre: string, ra: seq<string>, rb: seq<string>)
    requires |ra| >= 1
    ensures [pre + (ra + rb)[0]] + (ra + rb)[1..] == ([pre + ra[0]] + ra[1..]) + rb
  {
    assert (ra + rb)[0] == ra[0] && (ra + rb)[1..] == ra[1..] + rb;
  }

  /** The piece after the first `c` runs to the next `c` or the end. */
  lemma SecondPiece(pre: string, mid: string, rest: string, c: char)
    requires c !in pre && c !in mid && (rest == [] || rest[0] == c)
    ensures |Split(pre + [c] + mid + rest, c)| >= 2 && Split(pre + [c] + mid + rest, c)[1] == mid
  {
    var t := mid + rest;
    assert pre + [c] + mid + rest == pre + [c] + t;
    SplitAround(pre, t, c);
    SplitNone(pre, c);
    FirstPiece(mid, rest, c);
  }

  /** The first piece runs to the first `c` or the end. */
  lemma FirstPiece(mid: string, rest: string, c: char)
    requires c !in mid && (rest == [] || rest[0] == c)
    ensures Split(mid + rest, c)[0] == mid
  {
    if rest == [] {
      assert mid + rest == mid;
      SplitNone(mid, c);
    } else {
      assert mid + rest == mid + [c] + rest[1..];
      SplitAround(mid, rest[1..], c);
      SplitNone(mid, c);
    }
  }

  /** The decimal digit for `d`. */
  function Digit(d: nat): (ch: char)
    requires d < 10
    ensures '0' <= ch <= '9'
  {
    "0123456789"[d]
  }

  /** The value of a decimal digit character. */
  function DigitValue(ch: char): nat
  {
    if '0' <= ch <= '9' then (ch as int - '0' as int) as nat else 0
  }

  /** `str(n)` for a natural number. */
  function NatToString(n: nat): (s: string)
    ensures |s| >= 1
    ensures forall i :: 0 <= i < |s| ==> '0' <= s[i] <= '9'
    // No leading zero: "0" is the text of zero alone.
    ensures |s| > 1 ==> s[0] != '0'
    ensures s == "0" <==> n == 0
  {
    if n < 10 then [Digit(n)] else NatToString(n / 10) + [Digit(n % 10)]
  }

  /** `int(s)` for a string of decimal digits. */
  function ParseNat(s: string): nat
  {
    if s == [] then 0 else ParseNat(s[..|s| - 1]) * 10 + DigitValue(s[|s| - 1])
  }

  lemma DigitRoundTrip(d: nat)
    requires d < 10
    ensures DigitValue(Digit(d)) == d
  {
  }

  /** Reading back the text of a number gives the number. */
  lemma {:induction false} ParseNatToString(n: nat)
    ensures ParseNat(NatToString(n)) == n
  {
    DigitRoundTrip(n % 10);
    if n >= 10 {
      ParseNatToString(n / 10);
      var s := NatToString(n);
      assert s == NatToString(n / 10) + [Digit(n % 10)];
      assert s[..|s| - 1] == NatToString(n / 10);
      assert s[|s| - 1] == Digit(n % 10);
      assert ParseNat(s) == ParseNat(NatToString(n / 10)) * 10 + DigitValue(Digit(n % 10));
      assert (n / 10) * 10 + n % 10 == n;
    }
  }

  lemma ParseNatToStringBelow(n: nat)
    ensures forall i :: 0 <= i < n ==> ParseNat(NatToString(i)) == i
  {
    forall i | 0 <= i < n ensures ParseNat(NatToString(i)) == i {
      ParseNatToString(i);
    }
  }

  /** Distinct positions have distinct texts, so the keys "0".."n-1" never clash. */
  lemma NatToStringInjective(i: nat, j: nat)
    requires i != j
    ensures NatToString(i) != NatToString(j)
  {
    ParseNatToString(i);
    ParseNatToString(j);
  }

  /** Python's `t in s` on two strings. */
  predicate IsSubstring(t: string, s: string)
  {
    t <= s || (s != [] && IsSubstring(t, s[1..]))
  }

  /** `t` occurs in `s` starting at position `i`. */
  predicate OccursAt(t: string, s: string, i: int)
  {
    0 <= i && i + |t| <= |s| && s[i..i + |t|] == t
  }

  /** `t in s` holds exactly when `t` occurs somewhere in `s`. */
  lemma IsSubstringOccurs(t: string, s: string)
    ensures IsSubstring(t, s) <==> exists i :: OccursAt(t, s, i)
  {
    if IsSubstring(t, s) {
      var i := SubstringPosition(t, s);
    }
    if exists i :: OccursAt(t, s, i) {
      var i :| OccursAt(t, s, i);
      PositionSubstring(t, s, i);
    }
  }

  /** A position where `t in s` finds `t`. */
  lemma {:induction false} SubstringPosition(t: string, s: string) returns (i: nat)
    requires IsSubstring(t, s)
    ensures OccursAt(t, s, i)
  {
    if t <= s {
      i := 0;
    } else {
      var j := SubstringPosition(t, s[1..]);
      assert s[j + 1..j + 1 + |t|] == s[1..][j..j + |t|];
      i := j + 1;
    }
  }

  /** An occurrence of `t` in `s` makes `t in s` hold. */
  lemma {:induction false} PositionSubstring(t: string, s: string, i: int)
    requires OccursAt(t, s, i)
    ensures IsSubstring(t, s)
    decreases i
  {
    if i > 0 {
      assert s[1..][i - 1..i - 1 + |t|] == s[i..i + |t|];
      PositionSubstring(t, s[1..], i - 1);
    }
  }

  /** `s.replace('"', '')`. */
  function StripQuotes(s: string): (r: string)
    ensures '"' !in r
    ensures |r| == |s| - Count(s, '"')
  {
    if s == [] then []
    else if s[0] == '"' then StripQuotes(s[1..])
    else [s[0]] + StripQuotes(s[1..])
  }

  /** The removal only drops quotes: text without a quote is unchanged. */
  lemma {:induction false} StripQuotesUnchanged(s: string)
    ensures '"' !in s ==> StripQuotes(s) == s
  {
    if s != [] && '"' !in s {
      StripQuotesUnchanged(s[1..]);
      assert [s[0]] + s[1..] == s;
    }
  }

  lemma {:induction false} StripQuotesConcat(a: string, b: string)
    ensures StripQuotes(a + b) == StripQuotes(a) + StripQuotes(b)
  {
    if a != [] {
      assert (a + b)[0] == a[0] && (a + b)[1..] == a[1..] + b;
      StripQuotesConcat(a[1..], b);
      var x, y := StripQuotes(a[1..]), StripQuotes(b);
      if a[0] != '"' {
        assert StripQuotes(a + b) == [a[0]] + (x + y);
        assert [a[0]] + (x + y) == ([a[0]] + x) + y;
      }
    } else {
      assert a + b == b;
    }
  }

  /** `sep.join(parts)` for a separator string (Python gives "" for no parts). */
  function JoinWith(parts: seq<string>, sep: string): string
  {
    if |parts| == 0 then ""
    else if |parts| == 1 then parts[0]
    else parts[0] + sep + JoinWith(parts[1..], sep)
  }
}
