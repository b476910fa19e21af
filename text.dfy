/**
 * The Python string operations the core relies on, over `string` (a sequence of
 * characters): `str.split` with a one-character separator, `str.lower`,
 * `str.replace`, `int()` and `str()` on integers, string comparison, and the
 * regular expression "([^ ]*) .*".
 */
module Text {
  import opened Wrappers

  // ---------------------------------------------------------------------------
  // str.split(sep) with an explicit one-character separator
  // ---------------------------------------------------------------------------

  /** `s.split(sep)`: the pieces between separators, empty pieces included. */
  function Split(s: string, sep: char): (words: seq<string>)
    ensures |words| >= 1
    ensures forall i :: 0 <= i < |words| ==> sep !in words[i]
    decreases |s|
  {
    if |s| == 0 then [""]
    else
      var rest := Split(s[1..], sep);
      if s[0] == sep then [""] + rest
      else [[s[0]] + rest[0]] + rest[1..]
  }

  /** `sep.join(words)`. */
  function Join(words: seq<string>, sep: char): string
    requires |words| >= 1
    decreases |words|
  {
    if |words| == 1 then words[0] else words[0] + [sep] + Join(words[1..], sep)
  }

  /** Splitting and joining again gives back the original string. */
  lemma {:induction false} JoinSplit(s: string, sep: char)
    ensures Join(Split(s, sep), sep) == s
    decreases |s|
  {
    if |s| > 0 {
      var rest := Split(s[1..], sep);
      JoinSplit(s[1..], sep);
      if s[0] != sep && |rest| > 1 {
        assert Join(rest, sep) == rest[0] + [sep] + Join(rest[1..], sep);
        var words := [[s[0]] + rest[0]] + rest[1..];
        assert words[1..] == rest[1..];
      } else if s[0] == sep {
        var words := [""] + rest;
        assert words[1..] == rest;
      }
    }
  }

  /** A word free of the separator splits to itself. */
  lemma {:induction false} SplitWord(w: string, sep: char)
    requires sep !in w
    ensures Split(w, sep) == [w]
    decreases |w|
  {
    if |w| > 0 {
      SplitWord(w[1..], sep);
      assert [w[0]] + w[1..] == w;
    }
  }

  /** A separator-free word followed by the separator splits off as the first piece. */
  lemma {:induction false} SplitFirstWord(w: string, sep: char, rest: string)
    requires sep !in w
    ensures Split(w + [sep] + rest, sep) == [w] + Split(rest, sep)
    decreases |w|
  {
    var s := w + [sep] + rest;
    if |w| == 0 {
      assert s[1..] == rest;
    } else {
      assert s[1..] == w[1..] + [sep] + rest;
      SplitFirstWord(w[1..], sep, rest);
      assert [w[0]] + w[1..] == w;
    }
  }

  /** Joining separator-free words and splitting again gives back the words. */
  lemma {:induction false} SplitJoin(words: seq<string>, sep: char)
    requires |words| >= 1
    requires forall i :: 0 <= i < |words| ==> sep !in words[i]
    ensures Split(Join(words, sep), sep) == words
    decreases |words|
  {
    if |words| == 1 {
      SplitWord(words[0], sep);
    } else {
      SplitJoin(words[1..], sep);
      SplitFirstWord(words[0], sep, Join(words[1..], sep));
      assert [words[0]] + words[1..] == words;
    }
  }

  // ---------------------------------------------------------------------------
  // str.lower, restricted to ASCII letters
  // ---------------------------------------------------------------------------

  function LowerChar(c: char): char {
    if 'A' <= c <= 'Z' then (c as int + 32) as char else c
  }

  /** `s.lower()` for ASCII text. */
  function Lower(s: string): string {
    seq(|s|, i requires 0 <= i < |s| => LowerChar(s[i]))
  }

  // ---------------------------------------------------------------------------
  // str.replace(pat, rep): left to right, non-overlapping
  // ---------------------------------------------------------------------------

  function ReplaceAll(s: string, pat: string, rep: string): string
    requires |pat| > 0
    decreases |s|
  {
    if |s| == 0 then ""
    else if pat <= s then rep + ReplaceAll(s[|pat|..], pat, rep)
    else [s[0]] + ReplaceAll(s[1..], pat, rep)
  }

  /** Replacing a pattern whose first character does not occur changes nothing. */
  lemma {:induction false} ReplaceAbsent(s: string, pat: string, rep: string)
    requires |pat| > 0 && pat[0] !in s
    ensures ReplaceAll(s, pat, rep) == s
    decreases |s|
  {
    if |s| > 0 {
      assert !(pat <= s) by { assert s[0] != pat[0]; }
      ReplaceAbsent(s[1..], pat, rep);
      assert [s[0]] + s[1..] == s;
    }
  }

  /** A prefix free of the pattern's first character is copied through unchanged. */
  lemma {:induction false} ReplaceAfterPlain(a: string, b: string, pat: string, rep: string)
    requires |pat| > 0 && pat[0] !in a
    ensures ReplaceAll(a + b, pat, rep) == a + ReplaceAll(b, pat, rep)
    decreases |a|
  {
    if |a| > 0 {
      var s := a + b;
      assert s[0] == a[0] != pat[0];
      assert !(pat <= s);
      assert s[1..] == a[1..] + b;
      assert ReplaceAll(s, pat, rep) == [s[0]] + ReplaceAll(s[1..], pat, rep);
      ReplaceAfterPlain(a[1..], b, pat, rep);
      assert [a[0]] + (a[1..] + ReplaceAll(b, pat, rep)) == a + ReplaceAll(b, pat, rep);
    } else {
      assert a + b == b;
    }
  }

  /** HTML-escaping of ampersands, the inverse of `Unescape`. */
  function Escape(s: string): string {
    ReplaceAll(s, "&", "&amp;")
  }

  /** `s.replace("&amp;", "&")`. */
  function Unescape(s: string): string {
    ReplaceAll(s, "&amp;", "&")
  }

  /** Un-escaping undoes escaping, for every string. */
  lemma {:induction false} UnescapeEscape(s: string)
    ensures Unescape(Escape(s)) == s
    decreases |s|
  {
    if |s| > 0 {
      var tail := Escape(s[1..]);
      UnescapeEscape(s[1..]);
      if s[0] == '&' {
        assert "&" <= s;
        assert Escape(s) == "&amp;" + tail;
        assert "&amp;" <= "&amp;" + tail;
        assert ("&amp;" + tail)[5..] == tail;
      } else {
        assert !("&" <= s);
        assert Escape(s) == [s[0]] + tail;
        assert ([s[0]] + tail)[0] == s[0] != '&';
        assert !("&amp;" <= [s[0]] + tail);
        assert ([s[0]] + tail)[1..] == tail;
        assert [s[0]] + s[1..] == s;
      }
    }
  }

  /** A bare ampersand that does not start an `&amp;` is left alone by un-escaping. */
  lemma UnescapePlainAmpersand(a: string, b: string)
    requires '&' !in a && '&' !in b && !("amp;" <= b)
    ensures Unescape(a + "&" + b) == a + "&" + b
  {
    ReplaceAfterPlain(a, "&" + b, "&amp;", "&");
    assert a + "&" + b == a + ("&" + b);
    var t := "&" + b;
    assert !("&amp;" <= t);
    assert t[0] == '&' && t[1..] == b;
    assert ReplaceAll(t, "&amp;", "&") == "&" + ReplaceAll(b, "&amp;", "&");
    ReplaceAbsent(b, "&amp;", "&");
  }

  /** Int text with a leading plus sign reads as the same number. */
  lemma ParseIntPlus(s: string)
    requires |s| > 0 && AllDigits(s)
    ensures ParseInt("+" + s) == ParseInt(s)
  {
    assert ("+" + s)[1..] == s;
    assert s[0] != '+' && s[0] != '-' by { assert IsDigit(s[0]); }
  }

  /** A leading zero does not change the value of a run of digits. */
  lemma {:induction false} DigitsValueLeadingZero(s: string)
    requires AllDigits(s)
    ensures AllDigits("0" + s) && DigitsValue("0" + s) == DigitsValue(s)
    decreases |s|
  {
    var z := "0" + s;
    assert AllDigits(z) by {
      forall i | 0 <= i < |z| ensures IsDigit(z[i]) {
        if i > 0 { assert z[i] == s[i - 1]; }
      }
    }
    if |s| > 0 {
      var init := s[..|s| - 1];
      assert AllDigits(init) by {
        forall i | 0 <= i < |init| ensures IsDigit(init[i]) { assert init[i] == s[i]; }
      }
      DigitsValueLeadingZero(init);
      assert z[..|z| - 1] == "0" + init;
      assert z[|z| - 1] == s[|s| - 1];
    }
  }

  /** Int text with a leading zero reads as the same number, as Python's `int()` does. */
  lemma ParseIntLeadingZero(s: string)
    requires |s| > 0 && AllDigits(s)
    ensures ParseInt("0" + s) == ParseInt(s)
  {
    DigitsValueLeadingZero(s);
    assert ("0" + s)[0] == '0';
    assert s[0] != '+' && s[0] != '-' by { assert IsDigit(s[0]); }
  }

  /** Escaping a string with one ampersand in it. */
  lemma EscapeOneAmpersand(a: string, b: string)
    requires '&' !in a && '&' !in b
    ensures Escape(a + "&" + b) == a + "&amp;" + b
  {
    ReplaceAfterPlain(a, "&" + b, "&", "&amp;");
    assert a + "&" + b == a + ("&" + b);
    var t := "&" + b;
    assert "&" <= t && t[1..] == b;
    assert ReplaceAll(t, "&", "&amp;") == "&amp;" + ReplaceAll(b, "&", "&amp;");
    ReplaceAbsent(b, "&", "&amp;");
  }

  /** Escaping introduces no spaces. */
  lemma {:induction false} EscapeNoSpace(s: string)
    requires ' ' !in s
    ensures ' ' !in Escape(s)
    decreases |s|
  {
    if |s| > 0 {
      EscapeNoSpace(s[1..]);
      if s[0] != '&' {
        assert !("&" <= s);
      }
    }
  }

  // ---------------------------------------------------------------------------
  // int() on decimal text, str() on integers
  // ---------------------------------------------------------------------------

  predicate IsDigit(c: char) { '0' <= c <= '9' }

  predicate AllDigits(s: string) {
    forall i :: 0 <= i < |s| ==> IsDigit(s[i])
  }

  /** The value of a run of decimal digits, most significant first. */
  function DigitsValue(s: string): nat
    requires AllDigits(s)
    decreases |s|
  {
    if |s| == 0 then 0 else 10 * DigitsValue(s[..|s| - 1]) + (s[|s| - 1] as int - '0' as int)
  }

  /** `int(s)`: an optional sign followed by one or more decimal digits; anything else raises. */
  function ParseInt(s: string): Option<int> {
    if |s| > 0 && (s[0] == '+' || s[0] == '-') then
      var digits := s[1..];
      if |digits| > 0 && AllDigits(digits) then
        var magnitude: int := DigitsValue(digits);
        Some(if s[0] == '-' then -magnitude else magnitude)
      else None
    else if |s| > 0 && AllDigits(s) then Some(DigitsValue(s))
    else None
  }

  function DigitChar(d: nat): char
    requires d < 10
  {
    ('0' as int + d) as char
  }

  /** `str(n)` for a natural number. */
  function NatToString(n: nat): (r: string)
    ensures |r| > 0 && AllDigits(r)
    decreases n
  {
    if n < 10 then [DigitChar(n)] else NatToString(n / 10) + [DigitChar(n % 10)]
  }

  /** `str(n)`. */
  function IntToString(n: int): string {
    if n < 0 then "-" + NatToString(-n) else NatToString(n)
  }

  /** Printing a number of two or more digits prints its leading digits, then its last. */
  lemma NatToStringSnoc(q: nat, d: nat)
    requires 0 < q && d < 10
    ensures NatToString(10 * q + d) == NatToString(q) + [DigitChar(d)]
  {
    assert (10 * q + d) / 10 == q && (10 * q + d) % 10 == d;
  }

  lemma {:induction false} DigitsValueOfNatToString(n: nat)
    ensures DigitsValue(NatToString(n)) == n
    decreases n
  {
    if n >= 10 {
      var s := NatToString(n);
      DigitsValueOfNatToString(n / 10);
      assert s[..|s| - 1] == NatToString(n / 10);
    }
  }

  /** `int(str(n)) == n` for every integer. */
  lemma ParseIntOfIntToString(n: int)
    ensures ParseInt(IntToString(n)) == Some(n)
  {
    if n < 0 {
      var digits := NatToString(-n);
      var s := "-" + digits;
      assert s == IntToString(n);
      assert s[0] == '-' && s[1..] == digits;
      DigitsValueOfNatToString(-n);
      assert ParseInt(s) == Some(n);
    } else {
      var digits := NatToString(n);
      assert digits == IntToString(n);
      assert digits[0] != '+' && digits[0] != '-' by { assert IsDigit(digits[0]); }
      DigitsValueOfNatToString(n);
    }
  }

  /** `str(n)` never contains a space or a comma. */
  lemma IntToStringPlain(n: int)
    ensures ' ' !in IntToString(n) && ',' !in IntToString(n)
  {
    var s := IntToString(n);
    var digits := NatToString(if n < 0 then -n else n);
    assert forall i :: 0 <= i < |digits| ==> IsDigit(digits[i]);
    if n < 0 {
      assert forall i :: 1 <= i < |s| ==> s[i] == digits[i - 1];
    }
  }

  /** A string with a character that is neither a digit nor a leading sign is rejected. */
  lemma ParseIntRejects(s: string, i: nat)
    requires i < |s| && !IsDigit(s[i]) && !(i == 0 && (s[0] == '+' || s[0] == '-'))
    ensures ParseInt(s) == None
  {
    if |s| > 0 && (s[0] == '+' || s[0] == '-') {
      assert s[1..][i - 1] == s[i];
    }
  }

  // ---------------------------------------------------------------------------
  // Python's string ordering (code point by code point, a proper prefix first)
  // ---------------------------------------------------------------------------

  predicate LexLess(a: string, b: string)
    decreases |a|
  {
    if |a| == 0 then |b| > 0
    else if |b| == 0 then false
    else if a[0] != b[0] then a[0] < b[0]
    else LexLess(a[1..], b[1..])
  }

  lemma {:induction false} LexLessIrreflexive(a: string)
    ensures !LexLess(a, a)
    decreases |a|
  {
    if |a| > 0 {
      LexLessIrreflexive(a[1..]);
    }
  }

  lemma {:induction false} LexLessTransitive(a: string, b: string, c: string)
    requires LexLess(a, b) && LexLess(b, c)
    ensures LexLess(a, c)
    decreases |a|
  {
    if |a| > 0 && |b| > 0 && |c| > 0 && a[0] == b[0] && b[0] == c[0] {
      LexLessTransitive(a[1..], b[1..], c[1..]);
    }
  }

  lemma {:induction false} LexLessTotal(a: string, b: string)
    ensures a == b || LexLess(a, b) || LexLess(b, a)
    decreases |a|
  {
    if |a| > 0 && |b| > 0 && a[0] == b[0] {
      LexLessTotal(a[1..], b[1..]);
      if a[1..] == b[1..] {
        assert a == [a[0]] + a[1..] && b == [b[0]] + b[1..];
      }
    }
  }

  // ---------------------------------------------------------------------------
  // re.search("([^ ]*) .*", s).group(1)
  // ---------------------------------------------------------------------------

  /** The text before the first space; `None` when `s` has no space (the search finds no match). */
  function BeforeFirstSpace(s: string): (r: Option<string>)
    ensures r.Some? <==> ' ' in s
    ensures r.Some? ==> |r.value| < |s| && s[..|r.value|] == r.value && s[|r.value|] == ' ' && ' ' !in r.value
    decreases |s|
  {
    if |s| == 0 then None
    else if s[0] == ' ' then Some("")
    else match BeforeFirstSpace(s[1..])
      case None => None
      case Some(w) => Some([s[0]] + w)
  }

  /** A space-free word followed by a space and anything is cut back to that word. */
  lemma BeforeFirstSpaceOf(w: string, rest: string)
    requires ' ' !in w
    ensures BeforeFirstSpace(w + " " + rest) == Some(w)
  {
    var s := w + " " + rest;
    assert s[|w|] == ' ';
    var r := BeforeFirstSpace(s);
    assert r.Some?;
    var u := r.value;
    assert forall i :: 0 <= i < |w| ==> s[i] == w[i] && s[i] != ' ';
    assert forall i :: 0 <= i < |u| ==> u[i] == s[i] && u[i] != ' ';
    assert |u| == |w|;
    assert u == s[..|w|] == w;
  }
}
