/** The translation of the offset argument of kafka_consume into the value of
    `start_offset`: three keywords, the empty string, and otherwise the C
    library's strtoll in base 10. */
module OffsetToken {
  import opened Base
  import opened Rdkafka

  /** The characters isspace accepts in the "C" locale. */
  predicate IsSpace(ch: char)
  {
    ch == ' ' || ch == '\t' || ch == '\n' || ch == '\U{000B}' || ch == '\U{000C}' || ch == '\r'
  }

  predicate IsDigit(ch: char) { '0' <= ch <= '9' }

  predicate AllDigits(s: string)
  {
    forall i :: 0 <= i < |s| ==> IsDigit(s[i])
  }

  /** What C code sees of a host string: everything before its first NUL. */
  function CString(s: string): (r: string)
    ensures r <= s && '\0' !in r
    ensures |r| < |s| ==> s[|r|] == '\0'
  {
    if s == [] || s[0] == '\0' then [] else [s[0]] + CString(s[1..])
  }

  /** strtoll's skipping of leading white space. */
  function SkipSpace(s: string): (r: string)
    ensures |r| <= |s| && r == s[|s| - |r|..]
    ensures r == [] || !IsSpace(r[0])
    ensures forall i :: 0 <= i < |s| - |r| ==> IsSpace(s[i])
  {
    if s != [] && IsSpace(s[0]) then SkipSpace(s[1..]) else s
  }

  /** The longest prefix made of decimal digits. */
  function LeadingDigits(s: string): (r: string)
    ensures r <= s && AllDigits(r)
    ensures |r| < |s| ==> !IsDigit(s[|r|])
  {
    if s != [] && IsDigit(s[0]) then [s[0]] + LeadingDigits(s[1..]) else []
  }

  function DigitValue(ch: char): nat
    requires IsDigit(ch)
  {
    ch as int - '0' as int
  }

  /** The number a string of decimal digits denotes, most significant first. */
  function DecimalValue(ds: string): nat
    requires AllDigits(ds)
  {
    if ds == [] then 0 else DecimalValue(ds[..|ds| - 1]) * 10 + DigitValue(ds[|ds| - 1])
  }

  /** The text after an optional sign. */
  function AfterSign(t: string): (r: string)
    ensures r == t || (t != [] && r == t[1..])
  {
    if t != [] && (t[0] == '-' || t[0] == '+') then t[1..] else t
  }

  /** A magnitude with its sign, saturated to the range of a long long. */
  function Saturate(negative: bool, v: nat): (r: int)
    ensures IsInt64(r)
  {
    var m: int := if negative then -(v as int) else v;
    if m < INT64_MIN then INT64_MIN else if m > INT64_MAX then INT64_MAX else m
  }

  /** strtoll(s, NULL, 10): white space, an optional sign, then as many digits
      as there are; no digits gives 0, and a value outside the range of a
      long long saturates at LLONG_MAX or LLONG_MIN. */
  function Strtoll(s: string): (r: int)
    ensures IsInt64(r)
  {
    var t := SkipSpace(s);
    Saturate(t != [] && t[0] == '-', DecimalValue(LeadingDigits(AfterSign(t))))
  }

  /** The new `start_offset` for the offset argument `token`, given the
      previous one (kafka.c:405-414). */
  function TranslateOffset(token: string, prior: int): (r: int)
    ensures IsInt64(prior) ==> IsInt64(r)
  {
    var c := CString(token);
    if |c| == 0 then prior
    else if c == "end" then OffsetEnd
    else if c == "beginning" then OffsetBeginning
    else if c == "stored" then OffsetStored
    else Strtoll(c)
  }

  /** Decimal notation of a natural number, without leading zeros. */
  function ShowNat(n: nat): (s: string)
    ensures |s| >= 1 && AllDigits(s)
  {
    var last := [(n % 10 + '0' as int) as char];
    if n < 10 then last else ShowNat(n / 10) + last
  }

  /** Digits, preceded by a minus sign when `negative`. */
  function Signed(negative: bool, digits: string): string
  {
    if negative then "-" + digits else digits
  }

  /** Decimal notation of an integer, with a minus sign when negative. */
  function ShowInt(x: int): (s: string)
    ensures |s| >= 1 && (s[0] == '-' || IsDigit(s[0]))
  {
    Signed(x < 0, ShowNat(if x < 0 then -x else x))
  }

  lemma {:induction false} DecimalValueOfShow(n: nat)
    ensures DecimalValue(ShowNat(n)) == n
  {
    var s := ShowNat(n);
    if n >= 10 {
      DecimalValueOfShow(n / 10);
      assert s[..|s| - 1] == ShowNat(n / 10);
    }
  }

  /** Digits followed by a non-digit: the digit run ends where the digits do. */
  lemma {:induction false} LeadingDigitsOfAppend(a: string, b: string)
    requires AllDigits(a)
    requires b == [] || !IsDigit(b[0])
    ensures LeadingDigits(a + b) == a
  {
    if a == [] {
      assert a + b == b;
    } else {
      assert (a + b)[1..] == a[1..] + b;
      LeadingDigitsOfAppend(a[1..], b);
    }
  }

  /** How strtoll splits a numeral: no white space to skip, the sign, then the
      digits and whatever follows them. */
  lemma NumeralParts(digits: string, negative: bool, tail: string)
    requires AllDigits(digits) && |digits| > 0
    ensures var s := Signed(negative, digits) + tail;
      SkipSpace(s) == s && (s[0] == '-' <==> negative) && AfterSign(s) == digits + tail
  {
    var s := Signed(negative, digits) + tail;
    if negative {
      assert s == ['-'] + (digits + tail);
      assert s[0] == '-' && s[1..] == digits + tail;
    } else {
      assert s == digits + tail;
      assert IsDigit(s[0]);
    }
    assert !IsSpace(s[0]);
  }

  /** strtoll reads a decimal numeral up to the first non-digit and saturates
      what does not fit in 64 bits. */
  lemma StrtollOfNumeral(n: nat, negative: bool, tail: string)
    requires tail == [] || !IsDigit(tail[0])
    ensures Strtoll(Signed(negative, ShowNat(n)) + tail) == Saturate(negative, n)
  {
    var digits := ShowNat(n);
    NumeralParts(digits, negative, tail);
    LeadingDigitsOfAppend(digits, tail);
    DecimalValueOfShow(n);
  }

  /** Every 64-bit value survives being written out and read back by strtoll,
      whatever non-digit text follows it. */
  lemma StrtollRoundTrip(x: int, tail: string)
    requires IsInt64(x)
    requires tail == [] || !IsDigit(tail[0])
    ensures Strtoll(ShowInt(x) + tail) == x
  {
    var magnitude := if x < 0 then -x else x;
    StrtollOfNumeral(magnitude, x < 0, tail);
  }

  /** A string without NUL is seen by C code in full. */
  lemma {:induction false} CStringWithoutNul(s: string)
    requires '\0' !in s
    ensures CString(s) == s
  {
    if s != [] {
      assert '\0' !in s[1..] by {
        forall i | 0 <= i < |s[1..]| ensures s[1..][i] != '\0' {
          assert s[1..][i] == s[i + 1];
        }
      }
      CStringWithoutNul(s[1..]);
    }
  }

  /** Digits contain no NUL. */
  lemma DigitsWithoutNul(ds: string)
    requires AllDigits(ds)
    ensures '\0' !in ds
  {
  }

  /** A NUL-free token that starts with a minus sign or a digit is no keyword,
      so it goes to strtoll whole. */
  lemma TranslateNumberToken(s: string, prior: int)
    requires '\0' !in s && s != [] && (s[0] == '-' || IsDigit(s[0]))
    ensures TranslateOffset(s, prior) == Strtoll(s)
  {
    CStringWithoutNul(s);
    assert s != "end" && s != "beginning" && s != "stored" by {
      assert s[0] != 'e' && s[0] != 'b' && s[0] != 's';
    }
  }

  /** The empty token keeps the previous offset and the keywords give the
      library's sentinels. */
  lemma TranslateKeywords(token: string, prior: int)
    ensures token == "" ==> TranslateOffset(token, prior) == prior
    ensures token == "end" ==> TranslateOffset(token, prior) == OffsetEnd
    ensures token == "beginning" ==> TranslateOffset(token, prior) == OffsetBeginning
    ensures token == "stored" ==> TranslateOffset(token, prior) == OffsetStored
  {
    if token == "end" || token == "beginning" || token == "stored" {
      CStringWithoutNul(token);
    }
  }

  /** Any other token is a number: a 64-bit value written in decimal, with
      any non-digit suffix, translates to that value, whatever came before. */
  lemma TranslateNumeral(x: int, tail: string, prior: int)
    requires IsInt64(x)
    requires tail == [] || !IsDigit(tail[0])
    requires '\0' !in tail
    ensures TranslateOffset(ShowInt(x) + tail, prior) == x
  {
    var digits := ShowNat(if x < 0 then -x else x);
    DigitsWithoutNul(digits);
    assert ShowInt(x) == Signed(x < 0, digits);
    TranslateNumberToken(ShowInt(x) + tail, prior);
    StrtollRoundTrip(x, tail);
  }

  /** Digits followed by a non-digit read as the digits' value. */
  lemma StrtollOfDigits(ds: string, tail: string)
    requires AllDigits(ds) && ds != []
    requires tail == [] || !IsDigit(tail[0])
    ensures Strtoll(ds + tail) == Saturate(false, DecimalValue(ds))
  {
    NumeralParts(ds, false, tail);
    LeadingDigitsOfAppend(ds, tail);
  }

  /** A token of digits followed by text that does not start with a digit
      translates to the digits' value. */
  lemma TranslateDigits(ds: string, tail: string, prior: int)
    requires AllDigits(ds) && ds != []
    requires tail == [] || !IsDigit(tail[0])
    requires '\0' !in tail
    ensures TranslateOffset(ds + tail, prior) == Saturate(false, DecimalValue(ds))
  {
    DigitsWithoutNul(ds);
    assert (ds + tail)[0] == ds[0];
    TranslateNumberToken(ds + tail, prior);
    StrtollOfDigits(ds, tail);
  }

  /** The digits "17" denote seventeen. */
  lemma SeventeenDigits()
    ensures AllDigits("17") && DecimalValue("17") == 17
  {
    assert "17"[..1] == "1";
  }

  /** A numeral, and a numeral followed by letters, both read as 17. */
  lemma TranslateExamples(token: string, prior: int)
    ensures token == "17" ==> TranslateOffset(token, prior) == 17
    ensures token == "17ab" ==> TranslateOffset(token, prior) == 17
  {
    if token == "17" {
      SeventeenDigits();
      TranslateDigits("17", "", prior);
      assert "17" + "" == token;
    } else if token == "17ab" {
      SeventeenDigits();
      TranslateDigits("17", "ab", prior);
      assert "17" + "ab" == token;
    }
  }

  /** Text that starts with neither white space, a sign nor a digit reads as 0. */
  lemma StrtollWithoutDigits(s: string)
    requires s != [] && !IsSpace(s[0]) && !IsDigit(s[0]) && s[0] != '-' && s[0] != '+'
    ensures Strtoll(s) == 0
  {
    assert SkipSpace(s) == s;
    assert LeadingDigits(AfterSign(s)) == [];
  }

  /** A token with no digits at all is read as 0. */
  lemma TranslateWithoutDigits(token: string, prior: int)
    ensures token == "xyz" ==> TranslateOffset(token, prior) == 0
  {
    if token == "xyz" {
      CStringWithoutNul(token);
      StrtollWithoutDigits(token);
    }
  }
}
