/** String helpers the components use on user input: JavaScript's
    `trim()` test for blank input, the `/^https?:\/\//i` scheme test with its
    `https://` prefixing, and the business-phone formatter. */
module Text {
  import opened Seqs

  /** ECMAScript WhiteSpace and LineTerminator code points: the characters
      `String.prototype.trim` removes. */
  predicate IsSpace(c: char) {
    c == '\t' || c == '\n' || c == '\U{000B}' || c == '\U{000C}' || c == '\r' || c == ' '
    || c == '\U{00A0}' || c == '\U{1680}' || ('\U{2000}' <= c <= '\U{200A}')
    || c == '\U{2028}' || c == '\U{2029}' || c == '\U{202F}' || c == '\U{205F}'
    || c == '\U{3000}' || c == '\U{FEFF}'
  }

  /** JavaScript's `s.length`: UTF-16 code units, two for every code point
      above U+FFFF (a surrogate pair), one for every other. */
  function Utf16Length(s: string): (n: nat)
    ensures |s| <= n <= 2 * |s|
    ensures (forall i :: 0 <= i < |s| ==> s[i] as int < 0x10000) ==> n == |s|
    ensures (forall i :: 0 <= i < |s| ==> s[i] as int >= 0x10000) ==> n == 2 * |s|
  {
    if s == [] then 0
    else (if s[0] as int >= 0x10000 then 2 else 1) + Utf16Length(s[1..])
  }

  /** `s.trim()` without its leading white space. */
  function TrimStart(s: string): (r: string)
    ensures |r| <= |s| && r == s[|s| - |r|..]
    ensures r != [] ==> !IsSpace(r[0])
    ensures forall i :: 0 <= i < |s| - |r| ==> IsSpace(s[i])
  {
    if s != [] && IsSpace(s[0]) then TrimStart(s[1..]) else s
  }

  /** `s` without its trailing white space. */
  function TrimEnd(s: string): (r: string)
    ensures |r| <= |s| && r == s[..|r|]
    ensures r != [] ==> !IsSpace(r[|r| - 1])
    ensures forall i :: |r| <= i < |s| ==> IsSpace(s[i])
  {
    if s != [] && IsSpace(s[|s| - 1]) then TrimEnd(s[..|s| - 1]) else s
  }

  /** `s.trim()` */
  function Trim(s: string): string {
    TrimEnd(TrimStart(s))
  }

  /** Every character is white space: `!s.trim()` in the source. */
  predicate IsBlank(s: string) {
    forall i :: 0 <= i < |s| ==> IsSpace(s[i])
  }

  /** The source's `!x.trim()` tests exactly for blank input. */
  lemma TrimEmptyIffBlank(s: string)
    ensures Trim(s) == "" <==> IsBlank(s)
  {
    var t := TrimStart(s);
    if Trim(s) != "" {
      var r := Trim(s);
      assert !IsSpace(r[0]);
      assert r[0] == t[0] == s[|s| - |t|];
    }
  }

  // ---- the /^https?:\/\//i test --------------------------------------------

  /** ASCII case-insensitive character comparison (the `i` flag of a
      non-unicode regular expression on ASCII letters). */
  predicate SameLetter(c: char, d: char) {
    c == d
    || ('a' <= d <= 'z' && c as int == d as int - 32)
    || ('A' <= d <= 'Z' && c as int == d as int + 32)
  }

  /** `s` starts with `lower`, ignoring the case of ASCII letters. */
  predicate StartsIgnoringCase(s: string, lower: string) {
    |s| >= |lower| && forall i :: 0 <= i < |lower| ==> SameLetter(s[i], lower[i])
  }

  predicate HasHttpScheme(s: string) {
    StartsIgnoringCase(s, "http://") || StartsIgnoringCase(s, "https://")
  }

  /** A link as the feed stores it: kept verbatim when it already has an
      http or https scheme, else given `https://`. */
  function WithScheme(s: string): (r: string)
    ensures HasHttpScheme(r)
    ensures HasHttpScheme(s) <==> r == s
    ensures !HasHttpScheme(s) ==> r == "https://" + s
  {
    if HasHttpScheme(s) then s
    else
      var r := "https://" + s;
      assert StartsIgnoringCase(r, "https://") by {
        assert r[..8] == "https://";
      }
      r
  }

  /** `formatWebsiteUrl`: the empty string stays empty. */
  function FormatWebsiteUrl(url: string): (r: string)
    ensures url == "" <==> r == ""
    ensures url != "" ==> HasHttpScheme(r)
    ensures HasHttpScheme(url) ==> r == url
    ensures url != "" && !HasHttpScheme(url) ==> r == "https://" + url
  {
    if url == "" then "" else WithScheme(url)
  }

  /** Formatting a website address twice gives what formatting once gives. */
  lemma FormatWebsiteUrlIdempotent(url: string)
    ensures FormatWebsiteUrl(FormatWebsiteUrl(url)) == FormatWebsiteUrl(url)
  {
  }

  // ---- formatPhoneNumber ---------------------------------------------------

  predicate IsDigit(c: char) {
    '0' <= c <= '9'
  }

  /** `value.replace(/\D/g, '')` */
  function Digits(s: string): (d: string)
    ensures forall i :: 0 <= i < |d| ==> IsDigit(d[i])
  {
    var d := Filter(s, IsDigit);
    assert forall i :: 0 <= i < |d| ==> IsDigit(d[i]) by {
      forall i | 0 <= i < |d| ensures IsDigit(d[i]) {
        assert d[i] in d;
      }
    }
    d
  }

  /** `formatPhoneNumber`: ten digits become ddd-ddd-dddd, fewer come back
      as the bare digits, more leave the input as typed. */
  function FormatPhoneNumber(value: string): (r: string)
    ensures |Digits(value)| < 10 ==> r == Digits(value)
    ensures |Digits(value)| == 10 ==>
      |r| == 12 && r[3] == '-' && r[7] == '-'
      && r[..3] + r[4..7] + r[8..] == Digits(value)
    ensures |Digits(value)| > 10 ==> r == value
    ensures Digits(r) == Digits(value)
  {
    var d := Digits(value);
    if |d| <= 10 then
      if |d| == 10 then
        var r := d[..3] + "-" + d[3..6] + "-" + d[6..];
        assert r[..3] + r[4..7] + r[8..] == d;
        DigitsOfGrouped(d);
        r
      else
        DigitsOfDigits(d);
        d
    else value
  }

  lemma DigitsOfDigits(d: string)
    requires forall i :: 0 <= i < |d| ==> IsDigit(d[i])
    ensures Digits(d) == d
  {
    FilterAll(d, IsDigit);
  }

  /** A dash between two strings contributes no digit. */
  lemma DigitsAroundDash(x: string, y: string)
    ensures Digits(x + "-" + y) == Digits(x) + Digits(y)
  {
    var dash := "-";
    assert Filter(dash, IsDigit) == [] by {
      assert dash[1..] == [];
    }
    FilterAppend(x, dash, IsDigit);
    FilterAppend(x + dash, y, IsDigit);
  }

  /** The dashes added by the formatter are not digits. */
  lemma DigitsOfGrouped(d: string)
    requires |d| == 10 && forall i :: 0 <= i < |d| ==> IsDigit(d[i])
    ensures Digits(d[..3] + "-" + d[3..6] + "-" + d[6..]) == d
  {
    var a, b, c := d[..3], d[3..6], d[6..];
    DigitsAroundDash(a + "-" + b, c);
    DigitsAroundDash(a, b);
    DigitsOfDigits(a);
    DigitsOfDigits(b);
    DigitsOfDigits(c);
    assert a + b + c == d;
  }

  /** The phone field applies the formatter twice per keystroke (once as the
      field's pattern and once in its change handler); doing so is harmless. */
  lemma {:induction false} FormatPhoneNumberIdempotent(value: string)
    ensures FormatPhoneNumber(FormatPhoneNumber(value)) == FormatPhoneNumber(value)
  {
    var r := FormatPhoneNumber(value);
    var d := Digits(value);
    assert Digits(r) == d;
    if |d| == 10 {
      assert r == d[..3] + "-" + d[3..6] + "-" + d[6..] by {
        assert r[..3] == d[..3] && r[4..7] == d[3..6] && r[8..] == d[6..];
        assert r == r[..3] + [r[3]] + r[4..7] + [r[7]] + r[8..];
      }
    }
  }
}
