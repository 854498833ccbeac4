/** The decimal-literal grammar and the recognizer that consumes a string view label by label. */
module DecimalLiteral {

  predicate IsDigit(c: int) {
    '0' as int <= c <= '9' as int
  }

  const EOF := -1

  function Lookahead(s: string): int {
    if s == "" then EOF else s[0] as int
  }

  // ---------- the grammar ----------

  predicate Digits(s: string) {
    forall i | 0 <= i < |s| :: '0' <= s[i] <= '9'
  }

  predicate DigitSequence(s: string) {
    s != "" && Digits(s)
  }

  predicate Sign(s: string) {
    s == "+" || s == "-"
  }

  predicate PostE(s: string) {
    DigitSequence(s) || (s != "" && Sign(s[..1]) && DigitSequence(s[1..]))
  }

  predicate ExponentPart(s: string) {
    s != "" && (s[0] == 'e' || s[0] == 'E') && PostE(s[1..])
  }

  predicate ExponentPartOpt(s: string) {
    s == "" || ExponentPart(s)
  }

  predicate PostDecimalPoint(s: string) {
    exists n: nat | n <= |s| :: DigitSequence(s[..n]) && ExponentPartOpt(s[n..])
  }

  predicate FractionalPart(s: string) {
    s != "" && s[0] == '.' && PostDecimalPoint(s[1..])
  }

  /** `integer-part '.' exponent-part_opt` without its integer part. */
  predicate PointExponent(s: string) {
    s != "" && s[0] == '.' && ExponentPartOpt(s[1..])
  }

  predicate Literal(s: string) {
    || s == "0"
    || (s != "" && '1' <= s[0] <= '9' && Digits(s[1..]))
    || (exists n: nat | n <= |s| :: DigitSequence(s[..n]) && FractionalPart(s[n..]))
    || FractionalPart(s)
    || (exists n: nat | n <= |s| :: DigitSequence(s[..n]) && PointExponent(s[n..]))
    || (exists n: nat | n <= |s| :: DigitSequence(s[..n]) && ExponentPart(s[n..]))
  }

  // ---------- the recognizer ----------

  /** What can follow an integer part. */
  predicate AfterInteger(s: string) {
    FractionalPart(s) || PointExponent(s) || ExponentPart(s)
  }

  /** Drops the digits at the front. */
  method ConsumeDigits(s: string) returns (rest: string, ghost n: nat)
    ensures n <= |s| && Digits(s[..n]) && rest == s[n..] && !IsDigit(Lookahead(rest))
  {
    n := 0;
    var it := 0;
    while it < |s| && IsDigit(s[it] as int)
      invariant it <= |s| && Digits(s[..it])
    {
      it := it + 1;
    }
    return s[it..], it;
  }

  lemma NoDigitLeft(s: string, n: nat, m: nat)
    requires n <= |s| && m <= |s| && Digits(s[..m]) && !IsDigit(Lookahead(s[n..]))
    ensures m <= n
  {
    assert forall i | 0 <= i < m :: s[..m][i] == s[i];
    assert n < |s| ==> s[n..][0] == s[n];
  }

  /** If neither part can begin with a digit, there is only one way to split off leading digits. */
  lemma SplitIsUnique(s: string, n: nat, m: nat)
    requires n <= |s| && m <= |s| && Digits(s[..n]) && Digits(s[..m])
    requires !IsDigit(Lookahead(s[n..])) && !IsDigit(Lookahead(s[m..]))
    ensures n == m
  {
    NoDigitLeft(s, n, m);
    NoDigitLeft(s, m, n);
  }

  method PostELabel(s: string) returns (r: bool)
    ensures r <==> PostE(s)
  {
    var rest := s;
    if Lookahead(s) == '-' as int || Lookahead(s) == '+' as int {
      rest := s[1..];
    }
    if IsDigit(Lookahead(rest)) {
      var t := rest;
      ghost var n;
      rest, n := ConsumeDigits(t);
      r := rest == "";
      WholeDigits(t, n);
      return;
    }
    return false;
  }

  lemma WholeDigits(t: string, n: nat)
    requires n <= |t| && Digits(t[..n]) && !IsDigit(Lookahead(t[n..]))
    ensures Digits(t) <==> t[n..] == ""
  {
    if n == |t| {
      assert t[..n] == t;
    } else {
      assert t[n..][0] == t[n];
    }
  }

  method ExponentPartOptLabel(s: string) returns (r: bool)
    ensures r <==> ExponentPartOpt(s)
  {
    if Lookahead(s) == EOF {
      return true;
    } else if Lookahead(s) == 'e' as int || Lookahead(s) == 'E' as int {
      r := PostELabel(s[1..]);
    } else {
      return false;
    }
  }

  method PostDecimalPointLabel(s: string) returns (r: bool)
    ensures r <==> PostDecimalPoint(s)
  {
    if IsDigit(Lookahead(s)) {
      var rest;
      ghost var n;
      rest, n := ConsumeDigits(s);
      r := ExponentPartOptLabel(rest);
      DigitsThen(s, n);
      return;
    }
    assert forall n: nat | 0 < n <= |s| :: s[..n][0] == s[0];
    return false;
  }

  /** After some digits, a fraction continues exactly behind all of them. */
  lemma DigitsThen(s: string, n: nat)
    requires IsDigit(Lookahead(s)) && n <= |s| && Digits(s[..n]) && !IsDigit(Lookahead(s[n..]))
    ensures PostDecimalPoint(s) <==> ExponentPartOpt(s[n..])
  {
    assert n > 0;
    if m: nat :| m <= |s| && DigitSequence(s[..m]) && ExponentPartOpt(s[m..]) {
      SplitIsUnique(s, n, m);
    }
  }

  method IntegerPartConsumedLabel(s: string) returns (r: bool)
    ensures r <==> AfterInteger(s)
  {
    if Lookahead(s) == '.' as int {
      var rest := s[1..];
      if IsDigit(Lookahead(rest)) {
        r := PostDecimalPointLabel(rest);
      } else {
        r := ExponentPartOptLabel(rest);
        assert forall n: nat | 0 < n <= |rest| :: rest[..n][0] == rest[0];
      }
    } else if Lookahead(s) == 'e' as int || Lookahead(s) == 'E' as int {
      r := PostELabel(s[1..]);
    } else {
      return false;
    }
  }

  /** A literal that begins with a digit is all digits, without a leading zero unless that is all, or
      goes on behind its leading digits. */
  lemma LiteralByDigits(s: string, n: nat)
    requires IsDigit(Lookahead(s)) && n <= |s| && Digits(s[..n]) && !IsDigit(Lookahead(s[n..]))
    ensures Literal(s) <==> (s[n..] == "" && (s[0] != '0' || s == "0")) || AfterInteger(s[n..])
  {
    assert n > 0 && DigitSequence(s[..n]);
    WholeDigits(s, n);
    assert Digits(s) <==> Digits(s[1..]) by {
      assert forall i | 0 < i < |s| :: s[i] == s[1..][i - 1];
    }
    if m: nat :| m <= |s| && DigitSequence(s[..m]) && AfterInteger(s[m..]) {
      SplitIsUnique(s, n, m);
    }
  }

  /** The recognizer accepts exactly the language of the grammar. */
  method IsDecimalLiteral(s: string) returns (r: bool)
    ensures r <==> Literal(s)
  {
    var c := Lookahead(s);
    if c == '0' as int {
      var rest := s[1..];
      if rest == "" {
        return true;
      }
      ghost var n;
      var t := rest;
      rest, n := ConsumeDigits(t);
      assert s[..n + 1] == [s[0]] + t[..n] && s[n + 1..] == t[n..];
      LiteralByDigits(s, n + 1);
      r := IntegerPartConsumedLabel(rest);
    } else if IsDigit(c) {
      var rest;
      ghost var n;
      rest, n := ConsumeDigits(s);
      LiteralByDigits(s, n);
      if rest == "" {
        return true;
      }
      r := IntegerPartConsumedLabel(rest);
    } else if c == '.' as int {
      r := PostDecimalPointLabel(s[1..]);
      assert forall n: nat | 0 < n <= |s| :: s[..n][0] == s[0];
    } else {
      assert forall n: nat | 0 < n <= |s| :: s[..n][0] == s[0];
      return false;
    }
  }
}
