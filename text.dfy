/**
 * The Python string built-ins the program relies on, restricted to ASCII:
 * `str.strip()`, `str.lower()`, `str.title()` on a single word, and `int(str)`
 * on an optional sign followed by decimal digits.
 */
module Text {
  import opened Wrappers

  predicate IsUpper(c: char) { 'A' <= c <= 'Z' }
  predicate IsLower(c: char) { 'a' <= c <= 'z' }
  predicate IsDigit(c: char) { '0' <= c <= '9' }

  /** The ASCII characters for which Python's `str.isspace()` holds. */
  predicate IsSpace(c: char) { c == ' ' || 9 <= c as int <= 13 || 28 <= c as int <= 31 }

  function LowerChar(c: char): (r: char)
    ensures !IsUpper(r)
    ensures IsUpper(c) ==> IsLower(r)
    ensures !IsUpper(c) ==> r == c
  {
    if IsUpper(c) then (c as int + 32) as char else c
  }

  function UpperChar(c: char): (r: char)
    ensures !IsLower(r)
    ensures IsLower(c) ==> IsUpper(r)
    ensures !IsLower(c) ==> r == c
  {
    if IsLower(c) then (c as int - 32) as char else c
  }

  /** `s.lower()` */
  function Lower(s: string): (r: string)
    ensures |r| == |s|
    ensures forall i :: 0 <= i < |s| ==> r[i] == LowerChar(s[i])
  {
    seq(|s|, i requires 0 <= i < |s| => LowerChar(s[i]))
  }

  /** `s.title()` for a single word: first character upper case, the others lower case. */
  function Title(s: string): (r: string)
    ensures |r| == |s|
    ensures |s| > 0 ==> r[0] == UpperChar(s[0]) && !IsLower(r[0])
    ensures forall i :: 1 <= i < |s| ==> r[i] == LowerChar(s[i]) && !IsUpper(r[i])
  {
    if s == [] then [] else [UpperChar(s[0])] + Lower(s[1..])
  }

  /** Title case of a word typed in lower case: only the first letter changes. */
  lemma TitleOfLowerWord(s: string)
    requires s != [] && forall i :: 0 <= i < |s| ==> !IsUpper(s[i])
    ensures Title(s) == [UpperChar(s[0])] + s[1..]
  {
    assert Lower(s[1..]) == s[1..];
  }

  lemma LowerIdempotent(s: string)
    ensures Lower(Lower(s)) == Lower(s)
  {
  }

  /** Title-casing does not depend on the case the word was typed in. */
  lemma TitleIgnoresCase(s: string)
    ensures Title(Lower(s)) == Title(s)
  {
    if s != [] {
      assert Lower(s) == [LowerChar(s[0])] + Lower(s[1..]);
      assert Lower(s)[1..] == Lower(s[1..]);
      LowerIdempotent(s[1..]);
    }
  }

  predicate AllSpaces(s: string) { forall i :: 0 <= i < |s| ==> IsSpace(s[i]) }

  /** `s.lstrip()`: drops the whitespace at the front. */
  function StripLeft(s: string): (r: string)
    ensures |r| <= |s|
    ensures r != [] ==> !IsSpace(r[0])
  {
    if s != [] && IsSpace(s[0]) then StripLeft(s[1..]) else s
  }

  /** `s.rstrip()`: drops the whitespace at the back. */
  function StripRight(s: string): (r: string)
    ensures |r| <= |s|
    ensures r != [] ==> r[0] == s[0] && !IsSpace(r[|r| - 1])
  {
    if s != [] && IsSpace(s[|s| - 1]) then StripRight(s[..|s| - 1]) else s
  }

  /** `s.strip()` */
  function Strip(s: string): (r: string)
    ensures |r| <= |s|
    ensures r != [] ==> !IsSpace(r[0]) && !IsSpace(r[|r| - 1])
  {
    StripRight(StripLeft(s))
  }

  /** Strip yields the empty string exactly on blank input. */
  lemma {:induction false} StripEmptyIffBlank(s: string)
    ensures Strip(s) == [] <==> AllSpaces(s)
  {
    if s != [] && IsSpace(s[0]) {
      StripEmptyIffBlank(s[1..]);
      assert AllSpaces(s) <==> AllSpaces(s[1..]);
    } else if s != [] {
      StripRightKeepsWord(s);
    }
  }

  lemma {:induction false} StripRightKeepsWord(s: string)
    requires s != [] && !IsSpace(s[0])
    ensures StripRight(s) != []
  {
    if |s| > 1 && IsSpace(s[|s| - 1]) {
      StripRightKeepsWord(s[..|s| - 1]);
    }
  }

  lemma {:induction false} StripLeftPadded(pre: string, w: string)
    requires AllSpaces(pre)
    requires w != [] ==> !IsSpace(w[0])
    ensures StripLeft(pre + w) == w
  {
    if pre == [] {
      assert pre + w == w;
    } else {
      assert (pre + w)[1..] == pre[1..] + w;
      StripLeftPadded(pre[1..], w);
    }
  }

  lemma {:induction false} StripRightPadded(w: string, post: string)
    requires AllSpaces(post)
    requires w != [] ==> !IsSpace(w[|w| - 1])
    ensures StripRight(w + post) == w
  {
    if post == [] {
      assert w + post == w;
    } else {
      var s := w + post;
      assert s[..|s| - 1] == w + post[..|post| - 1];
      StripRightPadded(w, post[..|post| - 1]);
    }
  }

  /** Strip removes exactly the surrounding whitespace: every string is
      padding + word + padding, and Strip returns the word. */
  lemma StripPadded(pre: string, w: string, post: string)
    requires AllSpaces(pre) && AllSpaces(post)
    requires w != [] ==> !IsSpace(w[0]) && !IsSpace(w[|w| - 1])
    ensures Strip(pre + w + post) == w
  {
    if w == [] {
      assert pre + w + post == pre + post + [];
      StripLeftPadded(pre + post, []);
    } else {
      assert pre + w + post == pre + (w + post);
      StripLeftPadded(pre, w + post);
      StripRightPadded(w, post);
    }
  }

  predicate AllDigits(s: string) { forall i :: 0 <= i < |s| ==> IsDigit(s[i]) }

  /** The value of a string of decimal digits, most significant first. */
  function DigitsValue(s: string): nat
    requires AllDigits(s)
  {
    if s == [] then 0 else 10 * DigitsValue(s[..|s| - 1]) + (s[|s| - 1] as int - '0' as int)
  }

  /** `int(s)` for an already stripped `s`: an optional sign and at least one
      digit; anything else is a `ValueError`, here `None`. */
  function ParseInt(s: string): (r: Option<int>)
    ensures r.Some? ==> |s| >= 1 && forall i :: 1 <= i < |s| ==> IsDigit(s[i])
    ensures r.Some? ==> IsDigit(s[0]) || (|s| >= 2 && (s[0] == '+' || s[0] == '-'))
    ensures |s| >= 1 && AllDigits(s) ==> r.Some? && r.value >= 0
  {
    if |s| >= 2 && (s[0] == '+' || s[0] == '-') && AllDigits(s[1..]) then
      var v: int := DigitsValue(s[1..]);
      Some(if s[0] == '-' then -v else v)
    else if |s| >= 1 && AllDigits(s) then Some(DigitsValue(s))
    else None
  }

  /** The decimal numeral of `n` (what `str(n)` prints). */
  function DecimalDigits(n: nat): (s: string)
    ensures |s| > 0 && AllDigits(s)
  {
    if n < 10 then [('0' as int + n) as char]
    else DecimalDigits(n / 10) + [('0' as int + n % 10) as char]
  }

  function Decimal(n: int): (s: string)
    ensures |s| > 0
  {
    if n < 0 then "-" + DecimalDigits(-n) else DecimalDigits(n)
  }

  lemma {:induction false} DigitsRoundTrip(n: nat)
    ensures DigitsValue(DecimalDigits(n)) == n
  {
    if n >= 10 {
      var s := DecimalDigits(n);
      assert s[..|s| - 1] == DecimalDigits(n / 10);
      DigitsRoundTrip(n / 10);
    }
  }

  /** A leading zero does not change the value of a digit string. */
  lemma {:induction false} DigitsLeadingZero(s: string)
    requires AllDigits(s)
    ensures AllDigits("0" + s) && DigitsValue("0" + s) == DigitsValue(s)
    decreases |s|
  {
    var z := "0" + s;
    if s != [] {
      assert z[..|z| - 1] == "0" + s[..|s| - 1];
      assert z[|z| - 1] == s[|s| - 1];
      DigitsLeadingZero(s[..|s| - 1]);
    } else {
      assert z[..|z| - 1] == [];
    }
  }

  /** `int("0" + s) == int(s)` for a non-empty digit string `s`. */
  lemma ParseLeadingZero(s: string)
    requires |s| >= 1 && AllDigits(s)
    ensures ParseInt(s) == Some(DigitsValue(s))
    ensures ParseInt("0" + s) == ParseInt(s)
  {
    DigitsLeadingZero(s);
    var z := "0" + s;
    assert z[0] == '0';
  }

  /** `int("+" + s) == int(s)` for a non-empty digit string `s`. */
  lemma ParsePlus(s: string)
    requires |s| >= 1 && AllDigits(s)
    ensures ParseInt("+" + s) == ParseInt(s)
  {
    assert ("+" + s)[1..] == s;
  }

  /** `int("-" + s) == -int(s)` for a non-empty digit string `s`. */
  lemma ParseMinus(s: string)
    requires |s| >= 1 && AllDigits(s)
    ensures ParseInt("-" + s).Some? && ParseInt("-" + s).value == 0 - DigitsValue(s) as int
    ensures ParseInt(s) == Some(DigitsValue(s))
  {
    assert ("-" + s)[1..] == s;
  }

  /** `int(str(n)) == n` */
  lemma ParseDecimal(n: int)
    ensures ParseInt(Decimal(n)) == Some(n)
  {
    if n < 0 {
      assert Decimal(n)[1..] == DecimalDigits(-n);
      DigitsRoundTrip(-n);
    } else {
      DigitsRoundTrip(n);
    }
  }

  /** A numeral has no surrounding whitespace, so stripping leaves it alone. */
  lemma StripDecimal(n: int)
    ensures Strip(Decimal(n)) == Decimal(n)
  {
    var s := Decimal(n);
    assert !IsSpace(s[0]) && !IsSpace(s[|s| - 1]) by {
      if n < 0 {
        assert s[1..] == DecimalDigits(-n);
        assert s[|s| - 1] == DecimalDigits(-n)[|s| - 2];
      }
    }
    StripPadded([], s, []);
    assert [] + s + [] == s;
  }

  lemma SpaceUnderLower(c: char)
    ensures IsSpace(LowerChar(c)) == IsSpace(c)
    ensures IsDigit(LowerChar(c)) == IsDigit(c)
  {
  }

  lemma {:induction false} StripLeftLower(s: string)
    ensures StripLeft(Lower(s)) == Lower(StripLeft(s))
  {
    if s != [] {
      SpaceUnderLower(s[0]);
      assert Lower(s)[1..] == Lower(s[1..]);
      StripLeftLower(s[1..]);
    }
  }

  lemma {:induction false} StripRightLower(s: string)
    ensures StripRight(Lower(s)) == Lower(StripRight(s))
  {
    if s != [] {
      SpaceUnderLower(s[|s| - 1]);
      assert Lower(s)[..|s| - 1] == Lower(s[..|s| - 1]);
      StripRightLower(s[..|s| - 1]);
    }
  }

  /** Lower-casing commutes with stripping. */
  lemma StripLower(s: string)
    ensures Strip(Lower(s)) == Lower(Strip(s))
  {
    StripLeftLower(s);
    StripRightLower(StripLeft(s));
  }

  /** Digits and signs are unaffected by lower-casing, so `int()` reads the
      same number from `s` and `s.lower()`. */
  lemma ParseLower(s: string)
    ensures ParseInt(Lower(s)) == ParseInt(s)
  {
    var ls := Lower(s);
    forall i | 0 <= i < |s| ensures IsDigit(ls[i]) == IsDigit(s[i]) {
      SpaceUnderLower(s[i]);
    }
    if |s| >= 1 && AllDigits(s[1..]) {
      assert AllDigits(ls[1..]);
      assert ls[1..] == s[1..];
    }
    if |s| >= 1 && AllDigits(s) {
      assert ls == s;
    }
  }
}
