/** The contact-info pattern of the owner form,
      /^[0-9]{10}$|^[^\s@]+@[^\s@]+\.[^\s@]+$/
    read with JavaScript regular-expression semantics (no flags: `^` and `$`
    anchor the whole string). The pattern is first written as what the regular
    expression literally matches (a choice of alternatives, the second one a
    split of the string into runs), and then characterised by a reference
    description of the accepted shape. */
module ContactPattern {

  /** JavaScript's `\s`: the WhiteSpace and LineTerminator code points. */
  predicate IsSpace(c: char) {
    var n := c as int;
    (0x09 <= n <= 0x0D) || n == 0x20 || n == 0xA0 || n == 0x1680
    || (0x2000 <= n <= 0x200A) || n == 0x2028 || n == 0x2029
    || n == 0x202F || n == 0x205F || n == 0x3000 || n == 0xFEFF
  }

  /** `[0-9]`: ASCII digits only. */
  predicate IsDigit(c: char) {
    '0' <= c <= '9'
  }

  /** `[^\s@]` */
  predicate IsAddressChar(c: char) {
    !IsSpace(c) && c != '@'
  }

  /** `[^\s@]+` matches all of `t`. */
  predicate AddressRun(t: string) {
    |t| > 0 && forall k :: 0 <= k < |t| ==> IsAddressChar(t[k])
  }

  /** First alternative, `^[0-9]{10}$`. */
  predicate PhoneAlternative(s: string) {
    |s| == 10 && forall k :: 0 <= k < |s| ==> IsDigit(s[k])
  }

  /** Second alternative, `^[^\s@]+@[^\s@]+\.[^\s@]+$`: `s` splits at an `@`
      (index i) and a later `.` (index j) into three runs of `[^\s@]`. */
  predicate EmailAlternative(s: string) {
    exists i, j | 0 <= i < j < |s| ::
      s[i] == '@' && s[j] == '.'
      && AddressRun(s[..i]) && AddressRun(s[i + 1..j]) && AddressRun(s[j + 1..])
  }

  /** The whole pattern: `RegExp.prototype.test` on the value. */
  predicate Matches(s: string) {
    PhoneAlternative(s) || EmailAlternative(s)
  }

  // ---------------------------------------------------------------------
  // Reference description of the accepted e-mail shape

  predicate NoSpace(s: string) {
    forall k :: 0 <= k < |s| ==> !IsSpace(s[k])
  }

  /** `d` holds a `.` with at least one character on each side of it. */
  predicate DotInside(d: string) {
    exists k :: 0 < k < |d| - 1 && d[k] == '.'
  }

  /** `local@domain`: no whitespace anywhere, exactly one `@`, a non-empty
      local part, and a domain with an inner dot. */
  predicate EmailShape(s: string) {
    NoSpace(s) && multiset(s)['@'] == 1 &&
    exists a | 0 <= a < |s| && s[a] == '@' :: 0 < a && DotInside(s[a + 1..])
  }

  // ---------------------------------------------------------------------
  // The regular expression accepts exactly the reference shapes

  /** A run of `[^\s@]` holds no `@`. */
  lemma RunHasNoAt(t: string)
    requires AddressRun(t)
    ensures multiset(t)['@'] == 0
  {
  }

  /** Two `@` at different places mean at least two in the multiset. */
  lemma TwoAts(s: string, lo: int, hi: int)
    requires 0 <= lo < hi < |s| && s[lo] == '@' && s[hi] == '@'
    ensures multiset(s)['@'] >= 2
  {
    assert s == s[..lo] + [s[lo]] + s[lo + 1..hi] + [s[hi]] + s[hi + 1..];
  }

  /** A string with one `@` has it at one place only. */
  lemma OnlyOneAt(s: string, a: int, b: int)
    requires 0 <= a < |s| && 0 <= b < |s|
    requires s[a] == '@' && s[b] == '@'
    requires multiset(s)['@'] == 1
    ensures a == b
  {
    if a < b {
      TwoAts(s, a, b);
    } else if b < a {
      TwoAts(s, b, a);
    }
  }

  /** None of the characters of a split is whitespace. */
  lemma {:induction false} SplitHasNoSpace(s: string, i: int, j: int)
    requires 0 <= i < j < |s| && s[i] == '@' && s[j] == '.'
    requires AddressRun(s[..i]) && AddressRun(s[i + 1..j]) && AddressRun(s[j + 1..])
    ensures NoSpace(s)
  {
    forall k | 0 <= k < |s| ensures !IsSpace(s[k]) {
      if k < i {
        assert s[k] == s[..i][k];
      } else if i < k < j {
        assert s[k] == s[i + 1..j][k - i - 1];
      } else if j < k {
        assert s[k] == s[j + 1..][k - j - 1];
      }
    }
  }

  /** A split holds exactly one `@`, the one it splits at. */
  lemma {:induction false} SplitHasOneAt(s: string, i: int, j: int)
    requires 0 <= i < j < |s| && s[i] == '@' && s[j] == '.'
    requires AddressRun(s[..i]) && AddressRun(s[i + 1..j]) && AddressRun(s[j + 1..])
    ensures multiset(s)['@'] == 1
  {
    RunHasNoAt(s[..i]);
    RunHasNoAt(s[i + 1..j]);
    RunHasNoAt(s[j + 1..]);
    assert s == s[..i] + [s[i]] + s[i + 1..j] + [s[j]] + s[j + 1..];
  }

  /** A split as the regular expression sees it has the e-mail shape. */
  lemma {:induction false} EmailAlternativeHasShape(s: string)
    requires EmailAlternative(s)
    ensures EmailShape(s)
  {
    var i, j :| 0 <= i < j < |s| && s[i] == '@' && s[j] == '.'
      && AddressRun(s[..i]) && AddressRun(s[i + 1..j]) && AddressRun(s[j + 1..]);
    SplitHasNoSpace(s, i, j);
    SplitHasOneAt(s, i, j);
    var d := s[i + 1..];
    assert d[j - i - 1] == s[j];
    assert DotInside(d);
  }

  /** A value of the e-mail shape splits as the regular expression needs. */
  lemma {:induction false} EmailShapeIsAlternative(s: string)
    requires EmailShape(s)
    ensures EmailAlternative(s)
  {
    var a :| 0 <= a < |s| && s[a] == '@' && 0 < a && DotInside(s[a + 1..]);
    var d := s[a + 1..];
    var k :| 0 < k < |d| - 1 && d[k] == '.';
    var j := a + 1 + k;
    assert s[j] == d[k];
    forall m | 0 <= m < |s| && m != a ensures IsAddressChar(s[m]) {
      if s[m] == '@' {
        OnlyOneAt(s, a, m);
      }
    }
    assert AddressRun(s[..a]) by {
      forall m | 0 <= m < a ensures IsAddressChar(s[..a][m]) {
        assert s[..a][m] == s[m];
      }
    }
    var mid, tail := s[a + 1..j], s[j + 1..];
    assert AddressRun(mid) by {
      forall m | 0 <= m < |mid| ensures IsAddressChar(mid[m]) {
        assert mid[m] == s[a + 1 + m];
      }
    }
    assert AddressRun(tail) by {
      forall m | 0 <= m < |tail| ensures IsAddressChar(tail[m]) {
        assert tail[m] == s[j + 1 + m];
      }
    }
  }

  /** The second alternative of the pattern matches exactly the e-mail shape. */
  lemma EmailAlternativeIsEmailShape(s: string)
    ensures EmailAlternative(s) <==> EmailShape(s)
  {
    if EmailAlternative(s) {
      EmailAlternativeHasShape(s);
    }
    if EmailShape(s) {
      EmailShapeIsAlternative(s);
    }
  }

  /** The pattern accepts a value iff it is ten ASCII digits or has the
      `local@domain.tld` shape. */
  lemma MatchesIff(s: string)
    ensures Matches(s) <==> PhoneAlternative(s) || EmailShape(s)
  {
    EmailAlternativeIsEmailShape(s);
  }


  // ---------------------------------------------------------------------
  // Accepted and rejected values

  /** A ten-digit phone number and a plain address are accepted. */
  lemma AcceptedExamples()
    ensures Matches("1234567890")
    ensures Matches("a@b.com")
  {
    var s := "a@b.com";
    assert s[..1] == "a" && s[2..3] == "b" && s[4..] == "com";
    assert 0 <= 1 < 3 < |s| && s[1] == '@' && s[3] == '.'
      && AddressRun(s[..1]) && AddressRun(s[1 + 1..3]) && AddressRun(s[3 + 1..]);
  }

  /** A number with a country prefix is neither ten digits nor an address. */
  lemma PrefixedNumberRejected()
    ensures !Matches("+911234567890")
  {
    var s := "+911234567890";
    assert forall k :: 0 <= k < |s| ==> s[k] != '@';
  }

  /** Two `@` are rejected. */
  lemma TwoAtsRejected()
    ensures !Matches("a@b@c.com")
  {
    var s := "a@b@c.com";
    MatchesIff(s);
    TwoAts(s, 1, 3);
  }

  /** A blank inside an address is rejected. */
  lemma BlankRejected()
    ensures !Matches("a b@c.com")
  {
    var s := "a b@c.com";
    MatchesIff(s);
    assert IsSpace(s[1]);
  }

  /** `a@.com`, whose only dot comes right after the `@`, is rejected: no
      text lies between the `@` and that dot. */
  lemma EmptyDomainLabelRejected()
    ensures !Matches("a@.com")
  {
    var s := "a@.com";
    forall i, j | 0 <= i < j < |s| && s[i] == '@' && s[j] == '.'
      ensures !AddressRun(s[i + 1..j])
    {
      assert i == 1 && j == 2;
    }
  }

  /** `a@.b.c` is accepted although a dot follows the `@`: the middle run is
      `.b` and the split uses the second dot. */
  lemma DotAfterAtAccepted()
    ensures Matches("a@.b.c")
  {
    var s := "a@.b.c";
    assert s[..1] == "a" && s[2..4] == ".b" && s[5..] == "c";
    assert 0 <= 1 < 4 < |s| && s[1] == '@' && s[4] == '.'
      && AddressRun(s[..1]) && AddressRun(s[1 + 1..4]) && AddressRun(s[4 + 1..]);
  }

  /** `a@com.`, whose only dot is its last character, is rejected: no text
      follows that dot. */
  lemma TrailingDotRejected()
    ensures !Matches("a@com.")
  {
    var s := "a@com.";
    forall i, j | 0 <= i < j < |s| && s[i] == '@' && s[j] == '.'
      ensures !AddressRun(s[j + 1..])
    {
      assert j == 5;
    }
  }
}
