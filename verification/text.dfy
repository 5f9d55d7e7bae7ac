/** C-string helpers shared by the model of metar.c.

    Characters stand for the bytes of the C strings; the texts the program handles
    come from an XML document and therefore never contain a NUL byte, so a Dafny
    `string` is the C string without its terminator.
 */
module Text {

  datatype Option<+T> = None | Some(value: T)

  function Min(a: int, b: int): int
  {
    if a <= b then a else b
  }

  // ---------------------------------------------------------------------------
  // Decimal integers: printf's "%d" and libc's atoi
  // ---------------------------------------------------------------------------

  predicate IsDigit(c: char)
  {
    '0' <= c <= '9'
  }

  predicate AllDigits(s: string)
  {
    forall i :: 0 <= i < |s| ==> IsDigit(s[i])
  }

  function DigitChar(d: nat): (c: char)
    requires d < 10
    ensures IsDigit(c)
  {
    ('0' as int + d) as char
  }

  function DigitValue(c: char): (d: nat)
    requires IsDigit(c)
    ensures d < 10
  {
    c as int - '0' as int
  }

  /** The decimal digits of `n`, most significant first, without leading zeros. */
  function NatText(n: nat): (s: string)
    ensures |s| > 0 && AllDigits(s)
    ensures n < 10 <==> |s| == 1
    decreases n
  {
    if n < 10 then [DigitChar(n)] else NatText(n / 10) + [DigitChar(n % 10)]
  }

  /** What "%d" writes for `n`. */
  function IntText(n: int): (s: string)
    ensures |s| > 0
    ensures n >= 0 ==> AllDigits(s)
    ensures n < 0 ==> s[0] == '-' && AllDigits(s[1..])
  {
    if n < 0 then "-" + NatText(-n) else NatText(n)
  }

  /** The value of a run of decimal digits. */
  function DigitsValue(s: string): nat
    requires AllDigits(s)
    decreases |s|
  {
    if |s| == 0 then 0 else DigitsValue(s[..|s| - 1]) * 10 + DigitValue(s[|s| - 1])
  }

  /** isspace() in the C locale: blank, tab, newline, vertical tab, form feed, return. */
  predicate IsSpace(c: char)
  {
    c == ' ' || 9 <= c as int <= 13
  }

  function SkipSpace(s: string): (t: string)
    ensures |t| <= |s| && t == s[|s| - |t|..]
    ensures |t| > 0 ==> !IsSpace(t[0])
    decreases |s|
  {
    if |s| > 0 && IsSpace(s[0]) then SkipSpace(s[1..]) else s
  }

  /** The longest prefix of `s` made of digits. */
  function DigitPrefix(s: string): (d: string)
    ensures AllDigits(d) && |d| <= |s| && d == s[..|d|]
    ensures |d| < |s| ==> !IsDigit(s[|d|])
    decreases |s|
  {
    if |s| > 0 && IsDigit(s[0]) then [s[0]] + DigitPrefix(s[1..]) else []
  }

  /** atoi: leading white space, an optional sign, then as many digits as follow;
      text that does not start that way converts to 0. */
  function AtoI(s: string): int
  {
    var t := SkipSpace(s);
    if |t| > 0 && t[0] == '-' then -(DigitsValue(DigitPrefix(t[1..])) as int)
    else if |t| > 0 && t[0] == '+' then DigitsValue(DigitPrefix(t[1..]))
    else DigitsValue(DigitPrefix(t))
  }

  /** Whether strtod, and so atof, reads `s` as NaN: after leading white space and an
      optional sign come the letters "nan" in any mix of case (section 7.20.1.3 of
      ISO C99). */
  predicate ReadsAsNaN(s: string)
  {
    var t := SkipSpace(s);
    var u := if |t| > 0 && (t[0] == '-' || t[0] == '+') then t[1..] else t;
    |u| >= 3 && LowerAscii(u[0]) == 'n' && LowerAscii(u[1]) == 'a' && LowerAscii(u[2]) == 'n'
  }

  lemma {:induction false} DigitsValueOfNatText(n: nat)
    ensures DigitsValue(NatText(n)) == n
    decreases n
  {
    if n >= 10 {
      DigitsValueOfNatText(n / 10);
      var s := NatText(n);
      assert s[..|s| - 1] == NatText(n / 10);
    }
  }

  lemma {:induction false} DigitPrefixOfDigits(s: string)
    requires AllDigits(s)
    ensures DigitPrefix(s) == s
    decreases |s|
  {
    if |s| > 0 {
      DigitPrefixOfDigits(s[1..]);
    }
  }

  /** Text that starts with a digit is not skipped over and carries no sign. */
  lemma DigitsStart(d: string)
    requires |d| > 0 && IsDigit(d[0])
    ensures SkipSpace(d) == d && d[0] != '-' && d[0] != '+'
  {
  }

  lemma AtoIOfDigits(d: string)
    requires |d| > 0 && AllDigits(d)
    ensures AtoI(d) == DigitsValue(d)
  {
    assert IsDigit(d[0]);
    DigitsStart(d);
    DigitPrefixOfDigits(d);
  }

  lemma AtoIOfNegatedDigits(d: string)
    requires |d| > 0 && AllDigits(d)
    ensures AtoI("-" + d) == -(DigitsValue(d) as int)
  {
    var s := "-" + d;
    assert s[0] == '-' && !IsSpace(s[0]);
    assert SkipSpace(s) == s;
    assert s[1..] == d;
    DigitPrefixOfDigits(d);
  }

  /** atoi reads back exactly what "%d" wrote. */
  lemma AtoIOfIntText(n: int)
    ensures AtoI(IntText(n)) == n
  {
    var m: nat := if n < 0 then -n else n;
    DigitsValueOfNatText(m);
    if n < 0 {
      AtoIOfNegatedDigits(NatText(m));
    } else {
      AtoIOfDigits(NatText(m));
    }
  }

  /** Text whose first non-blank character is neither a sign nor a digit converts to 0. */
  lemma AtoIOfNonNumeric(s: string)
    requires var t := SkipSpace(s); |t| == 0 || (t[0] != '-' && t[0] != '+' && !IsDigit(t[0]))
    ensures AtoI(s) == 0
  {
  }

  // ---------------------------------------------------------------------------
  // Fixed-size copies and case-insensitive comparison
  // ---------------------------------------------------------------------------

  /** strncpy into a buffer of `n + 1` bytes followed by forcing the last byte to NUL:
      the first `n` characters, or all of them when there are fewer. */
  function Truncate(s: string, n: nat): (r: string)
    ensures |r| == Min(|s|, n)
    ensures r == s[..|r|]
  {
    if |s| <= n then s else s[..n]
  }

  /** tolower() in the C locale. */
  function LowerAscii(c: char): char
  {
    if 'A' <= c <= 'Z' then (c as int + 32) as char else c
  }

  /** strcasecmp(a, b) == 0 */
  predicate EqualsIgnoreCase(a: string, b: string)
  {
    |a| == |b| && forall i :: 0 <= i < |a| ==> LowerAscii(a[i]) == LowerAscii(b[i])
  }

  // ---------------------------------------------------------------------------
  // Space-separated word lists
  // ---------------------------------------------------------------------------

  /** The words separated by single spaces, with none before the first or after the last. */
  function JoinWords(ws: seq<string>): string
    decreases |ws|
  {
    if |ws| == 0 then ""
    else if |ws| == 1 then ws[0]
    else ws[0] + " " + JoinWords(ws[1..])
  }

  /** Each word followed by one space: what a sequence of strcat(buf, word) and
      strcat(buf, " ") calls leaves in the buffer. */
  function SpaceTerminated(ws: seq<string>): string
    decreases |ws|
  {
    if |ws| == 0 then "" else ws[0] + " " + SpaceTerminated(ws[1..])
  }

  /** The text without its last character, if it has one: how the composites drop
      the space after their final word. */
  function DropLastChar(s: string): (r: string)
    ensures |s| > 0 ==> r == s[..|s| - 1]
    ensures |s| == 0 ==> r == s
  {
    if |s| == 0 then s else s[..|s| - 1]
  }

  lemma {:induction false} SpaceTerminatedIsJoinPlusSpace(ws: seq<string>)
    requires |ws| > 0
    ensures SpaceTerminated(ws) == JoinWords(ws) + " "
    decreases |ws|
  {
    if |ws| > 1 {
      SpaceTerminatedIsJoinPlusSpace(ws[1..]);
    }
  }

  /** Appending "word " for every word and then cutting the last character joins the
      words with single spaces, leaving no trailing space. */
  lemma TrimmedTerminatedIsJoin(ws: seq<string>)
    ensures DropLastChar(SpaceTerminated(ws)) == JoinWords(ws)
  {
    if |ws| > 0 {
      SpaceTerminatedIsJoinPlusSpace(ws);
      var j := JoinWords(ws);
      assert (j + " ")[..|j|] == j;
    }
  }

  predicate NoSpace(w: string)
  {
    ' ' !in w
  }

  /** The index of the first occurrence of `c` in `s`. */
  function IndexOf(s: string, c: char): (i: nat)
    requires c in s
    ensures i < |s| && s[i] == c && c !in s[..i]
    decreases |s|
  {
    if s[0] == c then 0 else 1 + IndexOf(s[1..], c)
  }

  /** Cut a text at every space. */
  function SplitWords(s: string): (ws: seq<string>)
    ensures |ws| > 0
    decreases |s|
  {
    if ' ' in s then
      var i := IndexOf(s, ' ');
      [s[..i]] + SplitWords(s[i + 1..])
    else [s]
  }

  lemma IndexOfAfterPrefix(a: string, b: string)
    requires ' ' !in a
    ensures ' ' in a + " " + b && IndexOf(a + " " + b, ' ') == |a|
  {
    var s := a + " " + b;
    assert s[|a|] == ' ';
  }

  /** A space-free word, a space and a rest split into the word and the rest's words. */
  lemma SplitAfterWord(a: string, b: string)
    requires ' ' !in a
    ensures SplitWords(a + " " + b) == [a] + SplitWords(b)
  {
    var s := a + " " + b;
    IndexOfAfterPrefix(a, b);
    assert s[..|a|] == a;
    assert s[|a| + 1..] == b;
  }

  /** Splitting at spaces recovers a list of space-free words. */
  lemma {:induction false} SplitJoin(ws: seq<string>)
    requires |ws| > 0
    requires forall k :: 0 <= k < |ws| ==> NoSpace(ws[k])
    ensures SplitWords(JoinWords(ws)) == ws
    decreases |ws|
  {
    if |ws| == 1 {
      assert JoinWords(ws) == ws[0];
      assert NoSpace(ws[0]);
    } else {
      var rest := JoinWords(ws[1..]);
      assert NoSpace(ws[0]);
      forall k | 0 <= k < |ws[1..]| ensures NoSpace(ws[1..][k]) {
        assert ws[1..][k] == ws[k + 1];
      }
      calc {
        SplitWords(JoinWords(ws));
        SplitWords(ws[0] + " " + rest);
        { SplitAfterWord(ws[0], rest); }
        [ws[0]] + SplitWords(rest);
        { SplitJoin(ws[1..]); }
        [ws[0]] + ws[1..];
        ws;
      }
    }
  }
}
