/**
  The string operations the component applies to product data: `String.prototype.trim`
  on a new product's name, and the decimal text JavaScript prints for a quantity or an
  amount when it builds a CSV line. Amounts are integer cents.
 */
module Text {
  import opened Seqs

  /** JavaScript's WhiteSpace and LineTerminator characters, the set `trim` removes. */
  predicate IsWhitespace(c: char)
  {
    c == '\t' || c == '\n' || c == '\U{B}' || c == '\U{C}' || c == '\r' || c == ' '
    || c == '\U{A0}' || c == '\U{1680}' || ('\U{2000}' <= c <= '\U{200A}')
    || c == '\U{2028}' || c == '\U{2029}' || c == '\U{202F}' || c == '\U{205F}'
    || c == '\U{3000}' || c == '\U{FEFF}'
  }

  predicate AllWhitespace(s: string)
  {
    forall k :: 0 <= k < |s| ==> IsWhitespace(s[k])
  }

  lemma AllWhitespaceConcat(a: string, b: string)
    requires AllWhitespace(a) && AllWhitespace(b)
    ensures AllWhitespace(a + b)
  {
    forall k | 0 <= k < |a + b|
      ensures IsWhitespace((a + b)[k])
    {
      if k >= |a| {
        assert (a + b)[k] == b[k - |a|];
      }
    }
  }

  /** Drops the leading whitespace: the result is the suffix of `s` that starts at its first other character. */
  function TrimStart(s: string): (r: string)
    ensures |r| <= |s| && r == s[|s| - |r|..]
    ensures r == [] || !IsWhitespace(r[0])
    ensures AllWhitespace(s[..|s| - |r|])
  {
    if s != [] && IsWhitespace(s[0]) then
      var tail := s[1..];
      var r := TrimStart(tail);
      assert r == s[|s| - |r|..] by {
        assert tail[|tail| - |r|..] == s[|s| - |r|..];
      }
      assert s[..|s| - |r|] == [s[0]] + tail[..|tail| - |r|];
      AllWhitespaceConcat([s[0]], tail[..|tail| - |r|]);
      r
    else
      assert s[..0] == [];
      s
  }

  /** Drops the trailing whitespace: the result is the prefix of `s` that ends at its last other character. */
  function TrimEnd(s: string): (r: string)
    ensures |r| <= |s| && r == s[..|r|]
    ensures r == [] || !IsWhitespace(r[|r| - 1])
    ensures AllWhitespace(s[|r|..])
  {
    if s != [] && IsWhitespace(s[|s| - 1]) then
      var init := s[..|s| - 1];
      var r := TrimEnd(init);
      assert r == s[..|r|] by {
        assert init[..|r|] == s[..|r|];
      }
      assert s[|r|..] == init[|r|..] + [s[|s| - 1]];
      AllWhitespaceConcat(init[|r|..], [s[|s| - 1]]);
      r
    else
      assert s[|s|..] == [];
      s
  }

  /** `String.prototype.trim`. */
  function Trim(s: string): string
  {
    TrimEnd(TrimStart(s))
  }

  /** The two cut points of `trim`: what it keeps lies between them, and what lies
      outside them is whitespace. */
  lemma TrimCuts(s: string) returns (a: nat, b: nat)
    ensures a <= b <= |s| && Trim(s) == s[a..b]
    ensures AllWhitespace(s[..a]) && AllWhitespace(s[b..])
  {
    var t := TrimStart(s);
    var r := TrimEnd(t);
    a, b := |s| - |t|, |s| - |t| + |r|;
    assert s[a..b] == r && s[b..] == t[|r|..] by {
      assert t == s[a..];
    }
  }

  /** What `trim` keeps is a slice of the input that neither starts nor ends with
      whitespace, and everything it drops is whitespace. */
  lemma TrimIsCore(s: string)
    ensures exists a, b :: 0 <= a <= b <= |s| && Trim(s) == s[a..b]
                        && AllWhitespace(s[..a]) && AllWhitespace(s[b..])
    ensures Trim(s) == [] || (!IsWhitespace(Trim(s)[0]) && !IsWhitespace(Trim(s)[|Trim(s)| - 1]))
  {
    var a, b := TrimCuts(s);
    var t := TrimStart(s);
    var r := TrimEnd(t);
    if r != [] {
      assert r[0] == t[0];
      assert !IsWhitespace(r[0]) && !IsWhitespace(r[|r| - 1]);
    }
  }

  /** A name is trimmed to nothing exactly when it is made of whitespace only. */
  lemma TrimEmptyIffBlank(s: string)
    ensures Trim(s) == [] <==> AllWhitespace(s)
  {
    var a, b := TrimCuts(s);
    TrimIsCore(s);
    if Trim(s) == [] {
      assert s == s[..a] + s[b..];
      AllWhitespaceConcat(s[..a], s[b..]);
    } else {
      assert Trim(s)[0] == s[a];
    }
  }


  /** Trimming twice is trimming once. */
  lemma TrimIdempotent(s: string)
    ensures Trim(Trim(s)) == Trim(s)
  {
    var r := Trim(s);
    TrimIsCore(s);
    if r != [] {
      assert TrimStart(r) == r;
      assert TrimEnd(r) == r;
    }
  }

  function DigitChar(d: nat): (c: char)
    requires d < 10
    ensures '0' <= c <= '9'
  {
    ('0' as int + d) as char
  }

  function DigitValue(c: char): (d: nat)
    requires '0' <= c <= '9'
    ensures d < 10 && DigitChar(d) == c
  {
    (c as int - '0' as int) as nat
  }

  predicate IsDigits(s: string)
  {
    forall k :: 0 <= k < |s| ==> '0' <= s[k] <= '9'
  }

  /** The decimal numeral of `n`, without leading zeros, as JavaScript prints an integer. */
  function NatString(n: nat): (r: string)
    ensures |r| >= 1 && IsDigits(r)
  {
    if n < 10 then [DigitChar(n)] else NatString(n / 10) + [DigitChar(n % 10)]
  }

  /** The value of a string of decimal digits. */
  function ParseNat(s: string): nat
    requires IsDigits(s)
  {
    if s == [] then 0 else ParseNat(s[..|s| - 1]) * 10 + DigitValue(s[|s| - 1])
  }

  lemma {:induction false} NatStringRoundTrip(n: nat)
    ensures ParseNat(NatString(n)) == n
  {
    if n >= 10 {
      var s := NatString(n);
      assert s[..|s| - 1] == NatString(n / 10);
      NatStringRoundTrip(n / 10);
    }
  }

  /** `String(i)` for an integer. */
  function IntString(i: int): string
  {
    if i < 0 then "-" + NatString(-i) else NatString(i)
  }

  /** The fraction digits JavaScript prints for a number of whole cents: none for a whole
      amount, one digit when the last one would be a zero, two otherwise. */
  function FractionString(frac: nat): (r: string)
    requires frac < 100
    ensures |r| <= 2 && IsDigits(r)
  {
    if frac == 0 then ""
    else if frac % 10 == 0 then [DigitChar(frac / 10)]
    else [DigitChar(frac / 10), DigitChar(frac % 10)]
  }

  /** `String(cents / 100)`: the shortest decimal text of the amount, as JavaScript prints
      a price such as 150, 149.9 or 149.99. */
  function CentsString(cents: int): string
  {
    if cents < 0 then "-" + UnsignedCentsString(-cents) else UnsignedCentsString(cents)
  }

  function UnsignedCentsString(cents: nat): string
  {
    var frac := FractionString(cents % 100);
    if frac == "" then NatString(cents / 100) else NatString(cents / 100) + "." + frac
  }

  /** A spreadsheet's reading of a decimal amount, back to cents. */
  function ParseCents(s: string): int
  {
    if s != [] && s[0] == '-' then -ParseUnsignedCents(s[1..]) else ParseUnsignedCents(s)
  }

  function ParseUnsignedCents(s: string): int
  {
    var parts := Split(s, '.');
    var whole := if IsDigits(parts[0]) then ParseNat(parts[0]) else 0;
    var frac := if |parts| >= 2 && IsDigits(parts[1]) then FractionValue(parts[1]) else 0;
    whole * 100 + frac
  }

  function FractionValue(f: string): nat
    requires IsDigits(f)
  {
    if |f| == 0 then 0
    else if |f| == 1 then 10 * DigitValue(f[0])
    else 10 * DigitValue(f[0]) + DigitValue(f[1])
  }

  lemma FractionRoundTrip(frac: nat)
    requires frac < 100
    ensures FractionValue(FractionString(frac)) == frac
  {
    assert frac == 10 * (frac / 10) + frac % 10;
  }

  lemma {:induction false} UnsignedCentsRoundTrip(cents: nat)
    ensures ParseUnsignedCents(UnsignedCentsString(cents)) == cents
  {
    var whole := NatString(cents / 100);
    var frac := FractionString(cents % 100);
    NatStringRoundTrip(cents / 100);
    FractionRoundTrip(cents % 100);
    assert '.' !in whole by {
      assert forall k :: 0 <= k < |whole| ==> whole[k] != '.';
    }
    assert '.' !in frac by {
      assert forall k :: 0 <= k < |frac| ==> frac[k] != '.';
    }
    if frac == "" {
      SplitJoin([whole], '.');
      assert Join([whole], '.') == whole;
    } else {
      SplitJoin([whole, frac], '.');
      assert Join([whole, frac], '.') == whole + "." + frac;
    }
  }

  lemma UnsignedCentsStartsWithDigit(cents: nat)
    ensures |UnsignedCentsString(cents)| >= 1
    ensures '0' <= UnsignedCentsString(cents)[0] <= '9'
  {
    var w := NatString(cents / 100);
    assert UnsignedCentsString(cents)[0] == w[0];
  }

  lemma NegatedParse(u: string)
    ensures ParseCents("-" + u) == -ParseUnsignedCents(u)
  {
    var s := "-" + u;
    assert s[1..] == u;
  }

  lemma UnsignedParse(u: string)
    requires u != [] && '0' <= u[0] <= '9'
    ensures ParseCents(u) == ParseUnsignedCents(u)
  {
  }

  /** Reading back the printed amount gives the amount. */
  lemma CentsRoundTrip(cents: int)
    ensures ParseCents(CentsString(cents)) == cents
  {
    var magnitude: nat := if cents < 0 then -cents else cents;
    var u := UnsignedCentsString(magnitude);
    UnsignedCentsRoundTrip(magnitude);
    if cents < 0 {
      assert CentsString(cents) == "-" + u;
      NegatedParse(u);
    } else {
      assert CentsString(cents) == u;
      UnsignedCentsStartsWithDigit(magnitude);
      UnsignedParse(u);
    }
  }

  /** Printed numbers hold digits, '-' and '.', so never a CSV comma or a line break. */
  lemma NumberTextHasNoSeparators(i: int, cents: int)
    ensures ',' !in IntString(i) && '\n' !in IntString(i)
    ensures ',' !in CentsString(cents) && '\n' !in CentsString(cents)
  {
    var n := NatString(if i < 0 then -i else i);
    assert forall k :: 0 <= k < |n| ==> n[k] != ',' && n[k] != '\n';
    var c := if cents < 0 then -cents else cents;
    var w := NatString(c / 100);
    var f := FractionString(c % 100);
    assert forall k :: 0 <= k < |w| ==> w[k] != ',' && w[k] != '\n';
    assert forall k :: 0 <= k < |f| ==> f[k] != ',' && f[k] != '\n';
  }
}
