/**
 * The java.lang.String and java.lang.Long behaviour the core relies on:
 * String.trim, String.join, String.split on a one-character class,
 * String.endsWith, and decimal parsing and printing of integers.
 * Strings are sequences of characters.
 */
module JavaText {
  import opened Wrappers

  /** A character String.trim removes from either end: code point at most U+0020. */
  predicate IsBlank(c: char) {
    c <= ' '
  }

  /** How many blanks `s` starts with. */
  function LeadingBlanks(s: string): (n: nat)
    ensures n <= |s|
    ensures n < |s| ==> !IsBlank(s[n])
  {
    if s != [] && IsBlank(s[0]) then 1 + LeadingBlanks(s[1..]) else 0
  }

  /** How many blanks `s` ends with. */
  function TrailingBlanks(s: string): (n: nat)
    ensures n <= |s|
    ensures n < |s| ==> !IsBlank(s[|s| - 1 - n])
  {
    if s != [] && IsBlank(s[|s| - 1]) then 1 + TrailingBlanks(s[..|s| - 1]) else 0
  }

  /**
   * String.trim: skip the leading blanks, then drop the trailing blanks of
   * what is left; the result neither starts nor ends with a blank.
   */
  function Trim(s: string): (r: string)
    ensures r == [] || (!IsBlank(r[0]) && !IsBlank(r[|r| - 1]))
  {
    var t := s[LeadingBlanks(s)..];
    t[..|t| - TrailingBlanks(t)]
  }

  /** The leading blanks are blanks. */
  lemma {:induction false} LeadingAreBlank(s: string)
    ensures forall k :: 0 <= k < LeadingBlanks(s) ==> IsBlank(s[k])
  {
    if s != [] && IsBlank(s[0]) {
      LeadingAreBlank(s[1..]);
      assert forall k :: 1 <= k < LeadingBlanks(s) ==> s[k] == s[1..][k - 1];
    }
  }

  /** The trailing blanks are blanks. */
  lemma {:induction false} TrailingAreBlank(s: string)
    ensures forall k :: |s| - TrailingBlanks(s) <= k < |s| ==> IsBlank(s[k])
  {
    if s != [] && IsBlank(s[|s| - 1]) {
      TrailingAreBlank(s[..|s| - 1]);
    }
  }

  /**
   * Trim keeps a slice of `s` and removes only blanks: everything before
   * the slice and everything after it is blank.
   */
  lemma TrimSlice(s: string)
    ensures var r := Trim(s); var i := LeadingBlanks(s);
            i + |r| <= |s| && r == s[i..i + |r|]
            && (forall k :: 0 <= k < i ==> IsBlank(s[k]))
            && (forall k :: i + |r| <= k < |s| ==> IsBlank(s[k]))
  {
    var i := LeadingBlanks(s);
    var t := s[i..];
    var r := Trim(s);
    LeadingAreBlank(s);
    TrailingAreBlank(t);
    forall k | i + |r| <= k < |s|
      ensures IsBlank(s[k])
    {
      assert s[k] == t[k - i];
    }
  }

  /** A string that neither starts nor ends with a blank is left as it is by trim. */
  lemma TrimOfUnpadded(s: string)
    requires s == [] || (!IsBlank(s[0]) && !IsBlank(s[|s| - 1]))
    ensures Trim(s) == s
  {
  }

  /** Trimming twice is trimming once. */
  lemma TrimIdempotent(s: string)
    ensures Trim(Trim(s)) == Trim(s)
  {
    TrimOfUnpadded(Trim(s));
  }

  /** String.join(sep, fields): the fields with `sep` between neighbours. */
  function Join(sep: string, fields: seq<string>): string
  {
    if |fields| == 0 then ""
    else if |fields| == 1 then fields[0]
    else fields[0] + sep + Join(sep, fields[1..])
  }

  /** Joining one more field adds the separator and that field at the end. */
  lemma {:induction false} JoinSnoc(sep: string, fields: seq<string>, f: string)
    ensures Join(sep, fields + [f]) == if fields == [] then f else Join(sep, fields) + sep + f
  {
    if |fields| >= 2 {
      assert (fields + [f])[1..] == fields[1..] + [f];
      JoinSnoc(sep, fields[1..], f);
    } else if |fields| == 1 {
      assert (fields + [f])[1..] == [f];
    }
  }

  /**
   * Splits `s` at every character for which `isSep` holds, keeping every
   * piece, the empty ones included: n separators give n + 1 pieces.
   */
  function Split(s: string, isSep: char -> bool): (r: seq<string>)
    ensures |r| >= 1
  {
    if s == [] then [""]
    else
      var rest := Split(s[1..], isSep);
      if isSep(s[0]) then [""] + rest
      else [[s[0]] + rest[0]] + rest[1..]
  }

  /** The characters of `s` all fail `isSep`. */
  predicate NoSeparator(s: string, isSep: char -> bool) {
    forall k :: 0 <= k < |s| ==> !isSep(s[k])
  }

  /** A text without separators is one piece. */
  lemma {:induction false} SplitField(a: string, isSep: char -> bool)
    requires NoSeparator(a, isSep)
    ensures Split(a, isSep) == [a]
  {
    if a != [] {
      SplitField(a[1..], isSep);
      assert [a[0]] + a[1..] == a;
    }
  }

  /** A field followed by a separator splits off as the first piece. */
  lemma {:induction false} SplitAfterField(a: string, c: char, b: string, isSep: char -> bool)
    requires NoSeparator(a, isSep) && isSep(c)
    ensures Split(a + [c] + b, isSep) == [a] + Split(b, isSep)
  {
    var s := a + [c] + b;
    if a == [] {
      assert s[1..] == b;
    } else {
      assert s[1..] == a[1..] + [c] + b;
      SplitAfterField(a[1..], c, b, isSep);
      assert [a[0]] + a[1..] == a;
    }
  }

  /** Splitting undoes joining with a one-character separator that no field contains. */
  lemma {:induction false} SplitJoin(c: char, fields: seq<string>, isSep: char -> bool)
    requires |fields| >= 1 && isSep(c)
    requires forall i :: 0 <= i < |fields| ==> NoSeparator(fields[i], isSep)
    ensures Split(Join([c], fields), isSep) == fields
  {
    if |fields| == 1 {
      SplitField(fields[0], isSep);
    } else {
      SplitJoin(c, fields[1..], isSep);
      SplitAfterField(fields[0], c, Join([c], fields[1..]), isSep);
      assert [fields[0]] + fields[1..] == fields;
    }
  }

  /** Removes the empty strings at the end of a piece list. */
  function DropTrailingEmpty(xs: seq<string>): (r: seq<string>)
    ensures |r| <= |xs| && r == xs[..|r|]
    ensures r == [] || r[|r| - 1] != ""
    ensures forall k :: |r| <= k < |xs| ==> xs[k] == ""
  {
    if xs != [] && xs[|xs| - 1] == "" then DropTrailingEmpty(xs[..|xs| - 1]) else xs
  }

  /**
   * String.split(regex) for a regex that matches exactly one character of a
   * class: a string with no match is returned whole, otherwise the pieces
   * with the trailing empty ones removed.
   */
  function RegexSplit(s: string, isSep: char -> bool): seq<string>
  {
    var raw := Split(s, isSep);
    if |raw| == 1 then raw else DropTrailingEmpty(raw)
  }

  /** A field followed by a separator or by nothing is the first piece. */
  lemma FirstPiece(b: string, tail: string, isSep: char -> bool)
    requires NoSeparator(b, isSep)
    requires tail == [] || isSep(tail[0])
    ensures Split(b + tail, isSep)[0] == b
  {
    if tail == [] {
      assert b + tail == b;
      SplitField(b, isSep);
    } else {
      assert b + tail == b + [tail[0]] + tail[1..];
      SplitAfterField(b, tail[0], tail[1..], isSep);
    }
  }

  /**
   * Two non-empty fields free of separators, with a separator between them
   * and a separator or nothing after the second, are the first two pieces
   * of String.split.
   */
  lemma RegexSplitTwoFields(a: string, w: char, b: string, tail: string, isSep: char -> bool)
    requires a != "" && b != "" && NoSeparator(a, isSep) && NoSeparator(b, isSep)
    requires isSep(w) && (tail == [] || isSep(tail[0]))
    ensures var f := RegexSplit(a + [w] + b + tail, isSep); |f| >= 2 && f[0] == a && f[1] == b
  {
    var line := a + [w] + b + tail;
    assert line == a + [w] + (b + tail);
    SplitAfterField(a, w, b + tail, isSep);
    FirstPiece(b, tail, isSep);
    var raw := Split(line, isSep);
    assert raw == [a] + Split(b + tail, isSep);
    assert |raw| >= 2 && raw[0] == a && raw[1] == b;
    var fields := DropTrailingEmpty(raw);
    assert raw[1] != "";
  }

  /** The characters of the regular-expression class \s. */
  predicate IsRegexWhitespace(c: char) {
    c == ' ' || c == '\t' || c == '\n' || c == '\r' || c == '\U{000C}' || c == '\U{000B}'
  }

  /** String.endsWith. */
  predicate EndsWith(s: string, suffix: string) {
    |suffix| <= |s| && s[|s| - |suffix|..] == suffix
  }

  const IntMin: int := -0x8000_0000
  const IntMax: int := 0x7FFF_FFFF
  const LongMin: int := -0x8000_0000_0000_0000
  const LongMax: int := 0x7FFF_FFFF_FFFF_FFFF

  predicate IsDigit(c: char) {
    '0' <= c <= '9'
  }

  predicate AllDigits(s: string) {
    forall k :: 0 <= k < |s| ==> IsDigit(s[k])
  }

  /** The number a string of decimal digits denotes, most significant first. */
  function DigitsValue(ds: string): nat
    requires AllDigits(ds)
  {
    if ds == [] then 0
    else DigitsValue(ds[..|ds| - 1]) * 10 + ((ds[|ds| - 1] as int) - ('0' as int))
  }

  /**
   * Integer.parseInt / Long.parseLong in base 10 for the range [lo, hi]:
   * an optional '+' or '-', then at least one digit; anything else, or a
   * value outside the range, is a NumberFormatException (None).
   */
  function ParseDecimal(s: string, lo: int, hi: int): (r: Option<int>)
    ensures r.Some? ==> lo <= r.value <= hi
    ensures r.Some? ==> s != [] && (IsDigit(s[0]) || s[0] == '+' || s[0] == '-')
  {
    if s == [] then None
    else
      var negative := s[0] == '-';
      var digits := if s[0] == '-' || s[0] == '+' then s[1..] else s;
      if digits == [] || !AllDigits(digits) then None
      else
        var d: int := DigitsValue(digits);
        var v := if negative then -d else d;
        if lo <= v <= hi then Some(v) else None
  }

  /** Long.toString for a non-negative value: its digits without leading zeros. */
  function ShowNat(n: nat): (r: string)
    ensures r != [] && AllDigits(r) && DigitsValue(r) == n
    ensures n > 0 ==> r[0] != '0'
  {
    var last := (('0' as int) + n % 10) as char;
    if n < 10 then [last]
    else
      var r := ShowNat(n / 10) + [last];
      assert r[..|r| - 1] == ShowNat(n / 10);
      r
  }

  /** Long.toString / Integer.toString. */
  function ShowInt(n: int): (r: string)
    ensures r != [] && (r[0] == '-' <==> n < 0)
  {
    if n < 0 then "-" + ShowNat(-n) else ShowNat(n)
  }

  /** Parsing what toString printed gives back the number, inside the range. */
  lemma ParseShow(n: int, lo: int, hi: int)
    requires lo <= n <= hi
    ensures ParseDecimal(ShowInt(n), lo, hi) == Some(n)
  {
    if n < 0 {
      assert ShowInt(n)[1..] == ShowNat(-n);
    }
  }

  /** What toString prints holds no whitespace, so split keeps it whole. */
  lemma ShowIntNoWhitespace(n: int)
    ensures NoSeparator(ShowInt(n), IsRegexWhitespace)
  {
    var s := ShowInt(n);
    if n < 0 {
      assert forall k :: 1 <= k < |s| ==> s[k] == ShowNat(-n)[k - 1];
    }
  }
}
