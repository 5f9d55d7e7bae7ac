/** strReplace: find-and-replace of every occurrence of a needle, left to right, into a
    destination buffer of `len` bytes that silently truncates. */
module Replace {

  import opened Text

  /** `needle` occurs in `hay` at position `i`. */
  predicate MatchAt(needle: string, hay: string, i: nat)
  {
    i + |needle| <= |hay| && hay[i..i + |needle|] == needle
  }

  /** `needle` occurs in `hay` at no position from `from` on. */
  predicate NoMatchFrom(needle: string, hay: string, from: nat)
  {
    forall i :: from <= i <= |hay| ==> !MatchAt(needle, hay, i)
  }

  /** The loop of strReplace from position `i` of the haystack, with `out` already
      written to the destination (`pos` is `|out|`). At a match the replacement is
      written when it fits before the terminator and the needle is skipped; when it
      does not fit nothing is written and the scan moves on by a single character.
      Any other character is copied when there is room for it and dropped otherwise. */
  function Scan(needle: string, repl: string, hay: string, len: nat, i: nat, out: string): (r: string)
    requires |needle| > 0 && i <= |hay| && |out| < len
    ensures |out| <= |r| < len && r[..|out|] == out
    decreases |hay| - i
  {
    if i == |hay| then out
    else if MatchAt(needle, hay, i) then
      if |out| + |repl| < len then Scan(needle, repl, hay, len, i + |needle|, out + repl)
      else Scan(needle, repl, hay, len, i + 1, out)
    else if |out| + 1 < len then Scan(needle, repl, hay, len, i + 1, out + [hay[i]])
    else Scan(needle, repl, hay, len, i + 1, out)
  }

  /** The text strReplace leaves in a destination of `len` bytes: never more than
      `len - 1` characters, so the terminator always fits. */
  function StrReplace(needle: string, repl: string, hay: string, len: nat): (r: string)
    requires |needle| > 0 && len > 0
    ensures |r| < len
  {
    Scan(needle, repl, hay, len, 0, [])
  }

  /** strReplace as the C loop writes it, with `pos` and `i`. */
  method StrReplaceLoop(needle: string, repl: string, hay: string, len: nat) returns (dest: string)
    requires |needle| > 0 && len > 0
    ensures dest == StrReplace(needle, repl, hay, len)
  {
    dest := [];
    var pos := 0;
    var i := 0;
    while i < |hay|
      invariant 0 <= i <= |hay|
      invariant pos == |dest| < len
      invariant Scan(needle, repl, hay, len, i, dest) == StrReplace(needle, repl, hay, len)
      decreases |hay| - i
    {
      if i + |needle| <= |hay| && hay[i..i + |needle|] == needle {
        if pos + |repl| < len {
          dest := dest + repl;
          pos := pos + |repl|;
          i := i + |needle| - 1;
        }
      } else {
        if pos + 1 < len {
          dest := dest + [hay[i]];
          pos := pos + 1;
        }
      }
      i := i + 1;
    }
  }

  /** Reference definition: every non-overlapping occurrence of `needle`, found left
      to right, replaced by `repl`, with no length limit. */
  function ReplaceAll(needle: string, repl: string, hay: string): string
    requires |needle| > 0
    decreases |hay|
  {
    if |hay| == 0 then []
    else if |needle| <= |hay| && hay[..|needle|] == needle then
      repl + ReplaceAll(needle, repl, hay[|needle|..])
    else [hay[0]] + ReplaceAll(needle, repl, hay[1..])
  }

  /** The reference replacement of a suffix, one step in: a match gives the
      replacement, anything else its own character. */
  lemma ReplaceAllStep(needle: string, repl: string, hay: string, i: nat)
    requires |needle| > 0 && i < |hay|
    ensures MatchAt(needle, hay, i) ==>
      ReplaceAll(needle, repl, hay[i..]) == repl + ReplaceAll(needle, repl, hay[i + |needle|..])
    ensures !MatchAt(needle, hay, i) ==>
      ReplaceAll(needle, repl, hay[i..]) == [hay[i]] + ReplaceAll(needle, repl, hay[i + 1..])
  {
    var rest := hay[i..];
    if MatchAt(needle, hay, i) {
      assert rest[..|needle|] == needle;
      assert rest[|needle|..] == hay[i + |needle|..];
    } else {
      assert !(|needle| <= |rest| && rest[..|needle|] == needle);
      assert rest[1..] == hay[i + 1..];
    }
  }

  lemma {:induction false} ScanFits(needle: string, repl: string, hay: string, len: nat, i: nat, out: string)
    requires |needle| > 0 && i <= |hay| && |out| < len
    requires |out| + |ReplaceAll(needle, repl, hay[i..])| < len
    ensures Scan(needle, repl, hay, len, i, out) == out + ReplaceAll(needle, repl, hay[i..])
    decreases |hay| - i
  {
    if i == |hay| {
      assert hay[i..] == [];
    } else if MatchAt(needle, hay, i) {
      ReplaceAllStep(needle, repl, hay, i);
      var tail := ReplaceAll(needle, repl, hay[i + |needle|..]);
      ScanFits(needle, repl, hay, len, i + |needle|, out + repl);
      assert (out + repl) + tail == out + (repl + tail);
    } else {
      ReplaceAllStep(needle, repl, hay, i);
      var tail := ReplaceAll(needle, repl, hay[i + 1..]);
      ScanFits(needle, repl, hay, len, i + 1, out + [hay[i]]);
      assert (out + [hay[i]]) + tail == out + ([hay[i]] + tail);
    }
  }

  /** When the fully replaced text fits the buffer, strReplace produces exactly it:
      each non-overlapping occurrence of the needle, found left to right, replaced. */
  lemma StrReplaceWhenItFits(needle: string, repl: string, hay: string, len: nat)
    requires |needle| > 0 && len > 0
    requires |ReplaceAll(needle, repl, hay)| < len
    ensures StrReplace(needle, repl, hay, len) == ReplaceAll(needle, repl, hay)
  {
    assert hay[0..] == hay;
    ScanFits(needle, repl, hay, len, 0, []);
  }

  lemma {:induction false} ScanWithoutMatch(needle: string, repl: string, hay: string, len: nat, i: nat, out: string)
    requires |needle| > 0 && i <= |hay| && |out| < len
    requires NoMatchFrom(needle, hay, i)
    ensures Scan(needle, repl, hay, len, i, out) == out + hay[i..][..Min(|hay| - i, len - 1 - |out|)]
    decreases |hay| - i
  {
    if i < |hay| {
      assert !MatchAt(needle, hay, i);
      ScanWithoutMatch(needle, repl, hay, len, i + 1, if |out| + 1 < len then out + [hay[i]] else out);
    }
  }

  /** A text in which the needle does not occur is copied unchanged, cut to the
      `len - 1` characters the buffer can hold. */
  lemma StrReplaceWithoutMatch(needle: string, repl: string, hay: string, len: nat)
    requires |needle| > 0 && len > 0
    requires NoMatchFrom(needle, hay, 0)
    ensures StrReplace(needle, repl, hay, len) == hay[..Min(|hay|, len - 1)]
  {
    ScanWithoutMatch(needle, repl, hay, len, 0, []);
    assert hay[0..] == hay;
  }

  /** The reference replacement leaves a text without occurrences alone. */
  lemma {:induction false} ReplaceAllWithoutMatch(needle: string, repl: string, hay: string)
    requires |needle| > 0
    requires NoMatchFrom(needle, hay, 0)
    ensures ReplaceAll(needle, repl, hay) == hay
    decreases |hay|
  {
    if |hay| > 0 {
      assert !MatchAt(needle, hay, 0);
      assert |needle| <= |hay| ==> hay[..|needle|] == hay[0..|needle|];
      forall i | 0 <= i <= |hay[1..]| ensures !MatchAt(needle, hay[1..], i) {
        assert !MatchAt(needle, hay, i + 1);
        if i + |needle| <= |hay[1..]| {
          assert hay[1..][i..i + |needle|] == hay[i + 1..i + 1 + |needle|];
        }
      }
      ReplaceAllWithoutMatch(needle, repl, hay[1..]);
    }
  }

  /** A text that is exactly the needle becomes exactly the replacement. */
  lemma ReplaceAllOfNeedle(needle: string, repl: string)
    requires |needle| > 0
    ensures ReplaceAll(needle, repl, needle) == repl
  {
    assert needle[..|needle|] == needle;
    assert needle[|needle|..] == [];
  }

  /** When the needle itself is written for the needle, nothing changes. */
  lemma {:induction false} ReplaceAllIdentity(needle: string, hay: string)
    requires |needle| > 0
    ensures ReplaceAll(needle, needle, hay) == hay
    decreases |hay|
  {
    if |hay| > 0 {
      if |needle| <= |hay| && hay[..|needle|] == needle {
        ReplaceAllIdentity(needle, hay[|needle|..]);
        assert hay == hay[..|needle|] + hay[|needle|..];
      } else {
        ReplaceAllIdentity(needle, hay[1..]);
        assert hay == [hay[0]] + hay[1..];
      }
    }
  }

  /** When a match's replacement does not fit, the match is abandoned one character
      in: the needle's first character is lost and the rest of it is copied as plain
      text. Here a 4-character needle meets a 4-character replacement in a 4-byte
      buffer (room for 3 characters), and what is left is the needle without its
      opening brace. */
  lemma UnfittingMatchDropsFirstCharacter()
    ensures StrReplace("{ab}", "WXYZ", "{ab}", 4) == "ab}"
  {
    var n := "{ab}";
    assert MatchAt(n, n, 0);
    assert !MatchAt(n, n, 1) && !MatchAt(n, n, 2) && !MatchAt(n, n, 3);
    assert Scan(n, "WXYZ", n, 4, 0, []) == Scan(n, "WXYZ", n, 4, 1, []);
    assert Scan(n, "WXYZ", n, 4, 1, []) == Scan(n, "WXYZ", n, 4, 2, "a");
    assert Scan(n, "WXYZ", n, 4, 2, "a") == Scan(n, "WXYZ", n, 4, 3, "ab");
    assert Scan(n, "WXYZ", n, 4, 3, "ab") == Scan(n, "WXYZ", n, 4, 4, "ab}");
  }
}
