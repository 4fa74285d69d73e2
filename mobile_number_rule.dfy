/** MobileNumberRule::validate: a value passes when it matches the anchored
    pattern ^(\+\d{1,4}\d{10})$, i.e. a plus sign, a country code of one to
    four digits and ten more digits; otherwise the rule fails once with a
    fixed message. */
module MobileNumberRule {

  /** PCRE's \d without the u modifier: the ASCII digits. */
  predicate IsDigit(c: char)
  {
    '0' <= c <= '9'
  }

  predicate AllDigits(s: string)
  {
    forall i :: 0 <= i < |s| ==> IsDigit(s[i])
  }

  /** The group \+\d{1,4}\d{10} covering all of s, with a country code of
      length k. */
  predicate GroupWithCountryCode(s: string, k: int)
  {
    && 1 <= k <= 4
    && |s| == 1 + k + 10
    && s[0] == '+'
    && AllDigits(s[1..1 + k])
    && AllDigits(s[1 + k..])
  }

  /** The group matches all of s for some country-code length. */
  predicate MatchesGroup(s: string)
  {
    exists k :: 1 <= k <= 4 && GroupWithCountryCode(s, k)
  }

  /** preg_match on ^(...)$: the group from the start to the end of the
      subject, where PCRE's $ (without the D modifier) also matches just
      before one final newline. */
  predicate IsMobile(value: string)
  {
    || MatchesGroup(value)
    || (|value| >= 1 && value[|value| - 1] == '\n' && MatchesGroup(value[..|value| - 1]))
  }

  /** The one message the rule reports. */
  const FailMessage: string := "The :attribute must be a valid mobile number"

  /** validate: the messages passed to $fail, in order. */
  method Validate(attribute: string, value: string) returns (failures: seq<string>)
    ensures |failures| <= 1
    ensures failures == [] <==> IsMobile(value)
    ensures forall i :: 0 <= i < |failures| ==> failures[i] == FailMessage
  {
    failures := [];
    if !IsMobile(value) {
      failures := failures + [FailMessage];
    }
  }

  /** A plus sign followed by between 11 and 14 digits and nothing else. */
  predicate PlusDigits(b: string)
  {
    12 <= |b| <= 15 && b[0] == '+' && AllDigits(b[1..])
  }

  /** The group is exactly "+" and 11 to 14 digits. */
  lemma GroupClosedForm(b: string)
    ensures MatchesGroup(b) <==> PlusDigits(b)
  {
    if MatchesGroup(b) {
      var k :| 1 <= k <= 4 && GroupWithCountryCode(b, k);
      var digits, code, rest := b[1..], b[1..1 + k], b[1 + k..];
      forall i | 0 <= i < |digits| ensures IsDigit(digits[i]) {
        if i < k {
          assert digits[i] == code[i];
        } else {
          assert digits[i] == rest[i - k];
        }
      }
    }
    if PlusDigits(b) {
      var k := |b| - 11;
      var digits, code, rest := b[1..], b[1..1 + k], b[1 + k..];
      forall i | 0 <= i < |code| ensures IsDigit(code[i]) {
        assert code[i] == digits[i];
      }
      forall i | 0 <= i < |rest| ensures IsDigit(rest[i]) {
        assert rest[i] == digits[i + k];
      }
      assert GroupWithCountryCode(b, k);
    }
  }

  /** Closed form of the rule: accepted exactly when the value is "+" and 11
      to 14 ASCII digits, possibly followed by one newline. */
  lemma IsMobileClosedForm(value: string)
    ensures IsMobile(value) <==>
      || PlusDigits(value)
      || (|value| >= 1 && value[|value| - 1] == '\n' && PlusDigits(value[..|value| - 1]))
  {
    GroupClosedForm(value);
    if |value| >= 1 {
      GroupClosedForm(value[..|value| - 1]);
    }
  }

  /** A value that does not begin with a plus sign is rejected. */
  lemma RejectsWithoutPlus(value: string)
    requires |value| == 0 || value[0] != '+'
    ensures !IsMobile(value)
  {
    IsMobileClosedForm(value);
  }

  /** For "+" followed only by digits, the number of digits decides: 11 to 14 pass. */
  lemma DigitCountDecides(digits: string)
    requires AllDigits(digits)
    ensures IsMobile("+" + digits) <==> 11 <= |digits| <= 14
  {
    var v := "+" + digits;
    IsMobileClosedForm(v);
    assert v[1..] == digits;
    if |v| >= 2 {
      assert v[|v| - 1] == digits[|digits| - 1];
    }
  }

  /** Any character after the plus sign that is not a digit rejects the
      value, save the one final newline the $ anchor tolerates. */
  lemma RejectsNonDigit(value: string, i: nat)
    requires 1 <= i < |value|
    requires !IsDigit(value[i])
    requires !(i == |value| - 1 && value[i] == '\n')
    ensures !IsMobile(value)
  {
    IsMobileClosedForm(value);
    assert value[1..][i - 1] == value[i];
    if i < |value| - 1 {
      assert value[..|value| - 1][1..][i - 1] == value[i];
    }
  }

  /** One trailing newline is let through by PCRE's $, and only one. */
  lemma AcceptsOneTrailingNewline(value: string)
    requires PlusDigits(value)
    ensures IsMobile(value)
    ensures IsMobile(value + "\n")
    ensures !IsMobile(value + "\n\n")
  {
    IsMobileClosedForm(value);
    var w := value + "\n";
    assert w[..|w| - 1] == value;
    IsMobileClosedForm(w);
    var w2 := w + "\n";
    assert value + "\n\n" == w2;
    assert w2[..|w2| - 1] == w;
    assert w2[1..][|w2| - 2] == '\n';
    assert w[1..][|w| - 2] == '\n';
    IsMobileClosedForm(w2);
  }

  /** A number with a two-digit country code passes; the same digits
      without the plus sign do not, nor do ten digits with no country code. */
  lemma SampleValues()
    ensures IsMobile("+923001234567")
    ensures !IsMobile("923001234567")
    ensures !IsMobile("+3001234567")
  {
    var d := "923001234567";
    assert AllDigits(d) by {
      forall i | 0 <= i < |d| ensures IsDigit(d[i]) {}
    }
    DigitCountDecides(d);
    assert "+923001234567" == "+" + d;
    RejectsWithoutPlus("923001234567");
    var e := "3001234567";
    assert AllDigits(e) by {
      forall i | 0 <= i < |e| ensures IsDigit(e[i]) {}
    }
    DigitCountDecides(e);
    assert "+3001234567" == "+" + e;
  }
}
