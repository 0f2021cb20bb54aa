// The two orders of object keys, as numbers and as strings: what an array index is, and what the
// comparisons of the canonical form mean.
module KeyOrders {
  import opened SpecCanonical
  import opened SpecHash

  predicate Digits(s: string) {
    forall c | c in s :: '0' <= c <= '9'
  }

  function Value(s: string): nat
    requires Digits(s)
  {
    if s == "" then 0
    else
      var n := |s| - 1;
      assert s[n] in s && forall c | c in s[..n] :: c in s;
      10 * Value(s[..n]) + (s[n] as int - '0' as int)
  }

  predicate IsNumeral(s: string) {
    s != "" && Digits(s) && (s[0] != '0' || |s| == 1)
  }

  // ---------- Numerals ----------

  lemma Digit(n: nat)
    requires n < 10
    ensures "0123456789"[n] as int == '0' as int + n && '0' <= "0123456789"[n] <= '9'
  {
  }

  lemma {:induction false} DecimalIsNumeral(n: nat)
    ensures IsNumeral(Decimal(n)) && Value(Decimal(n)) == n
    ensures n > 0 ==> Decimal(n)[0] != '0'
  {
    if n < 10 {
      Digit(n);
      assert Decimal(n)[..0] == "";
    } else {
      DecimalIsNumeral(n / 10);
      Digit(n % 10);
      assert Decimal(n)[..|Decimal(n)| - 1] == Decimal(n / 10);
    }
  }

  lemma {:induction false} NumeralIsDecimal(s: string)
    requires IsNumeral(s)
    ensures Decimal(Value(s)) == s
  {
    var n := |s| - 1;
    var front, d := s[..n], s[n] as int - '0' as int;
    assert s == front + [s[n]] && s[n] in s && forall c | c in front :: c in s;
    Digit(d);
    if n == 0 {
      assert front == "";
    } else {
      assert front[0] == s[0];
      NumeralIsDecimal(front);
      Shorter("", front);
      assert Value(s) / 10 == Value(front) && Value(s) % 10 == d;
    }
  }

  // A numeral is larger than every shorter string of digits.
  lemma {:induction false} Shorter(a: string, b: string)
    requires Digits(a) && Digits(b) && |a| < |b| && b[0] != '0'
    ensures Value(a) < Value(b)
    decreases |b|
  {
    var n := |b| - 1;
    assert b[0] in b && b[n] in b && forall c | c in b[..n] :: c in b;
    if n == 0 {
      assert b[..0] == "" && a == "";
    } else if a == "" {
      assert b[..n][0] == b[0];
      Shorter("", b[..n]);
    } else {
      assert b[..n][0] == b[0];
      var m := |a| - 1;
      assert a[m] in a && forall c | c in a[..m] :: c in a;
      Shorter(a[..m], b[..n]);
    }
  }

  // ---------- Strings ----------

  // A string comes first if it is a proper beginning of the other one, or smaller where they differ.
  lemma {:induction false} LessMeaning(a: string, b: string)
    ensures Less(a, b) <==> a < b || exists k :: DifferFirstAt(a, b, k) && a[k] < b[k]
  {
    if a == "" || b == "" {
    } else if a[0] != b[0] {
      assert a[0] < b[0] ==> DifferFirstAt(a, b, 0);
      assert forall k :: DifferFirstAt(a, b, k) ==> k == 0;
    } else {
      var x, y := a[1..], b[1..];
      LessMeaning(x, y);
      assert a == [a[0]] + x && b == [b[0]] + y;
      assert a < b <==> x < y;
      if k :| DifferFirstAt(x, y, k) && x[k] < y[k] {
        AfterFirst(a, b, k);
        assert a[k + 1] < b[k + 1];
      }
      if k :| DifferFirstAt(a, b, k) && a[k] < b[k] {
        assert k > 0;
        AfterFirst(a, b, k - 1);
        assert x[k - 1] < y[k - 1];
      }
    }
  }

  predicate DifferFirstAt(a: string, b: string, k: int) {
    0 <= k < |a| && k < |b| && a[k] != b[k] && a[..k] == b[..k]
  }

  lemma AfterFirst(a: string, b: string, k: int)
    requires a != "" && b != "" && a[0] == b[0] && k >= 0
    ensures DifferFirstAt(a[1..], b[1..], k) <==> DifferFirstAt(a, b, k + 1)
  {
    if k < |a| - 1 && k < |b| - 1 {
      assert a[..k + 1] == [a[0]] + a[1..][..k] && b[..k + 1] == [b[0]] + b[1..][..k];
      assert a[1..k + 1] == a[1..][..k] && b[1..k + 1] == b[1..][..k];
      assert a[..k + 1][1..] == a[1..k + 1] && b[..k + 1][1..] == b[1..k + 1];
    }
  }

  // Of strings of the same length, the last characters decide where all before them agree.
  lemma {:induction false} LessLast(a: string, b: string)
    requires |a| == |b| > 0
    ensures var n := |a| - 1;
            Less(a, b) <==> Less(a[..n], b[..n]) || (a[..n] == b[..n] && a[n] < b[n])
  {
    var n := |a| - 1;
    if n > 0 {
      LessLast(a[1..], b[1..]);
      assert a[1..][..n - 1] == a[..n][1..] && b[1..][..n - 1] == b[..n][1..];
      assert a[..n] == [a[0]] + a[..n][1..] && b[..n] == [b[0]] + b[..n][1..];
    } else {
      assert a[1..] == "" && b[1..] == "";
    }
  }

  lemma OneMoreDigit(s: string, c: char)
    requires Digits(s) && '0' <= c <= '9'
    ensures Digits(s + [c]) && Value(s + [c]) == 10 * Value(s) + (c as int - '0' as int)
  {
    assert (s + [c])[..|s|] == s;
  }

  // On digit strings of the same length the order of strings is that of numbers.
  lemma {:induction false} SameLengthIsNumeric(a: string, b: string)
    requires Digits(a) && Digits(b) && |a| == |b|
    ensures Less(a, b) <==> Value(a) < Value(b)
    ensures a == b <==> Value(a) == Value(b)
  {
    if a != "" {
      var n := |a| - 1;
      var x, y := a[..n], b[..n];
      assert a[n] in a && b[n] in b && (forall c | c in x :: c in a) && (forall c | c in y :: c in b);
      SameLengthIsNumeric(x, y);
      LessLast(a, b);
      assert a == x + [a[n]] && b == y + [b[n]];
      OneMoreDigit(x, a[n]);
      OneMoreDigit(y, b[n]);
      hide Value, Less, Digits;
      assert a == b <==> x == y && a[n] == b[n];
    } else {
      assert b == "";
    }
  }

  // ---------- Array indices ----------

  lemma LargestIndex()
    ensures IsNumeral("4294967295") && Value("4294967295") == 4294967295
  {
    hide Value, Digits;
    NoDigits();
    OneMoreDigit("", '4');
    OneMoreDigit("" + ['4'], '2');
    OneMoreDigit("" + ['4'] + ['2'], '9');
    OneMoreDigit("" + ['4'] + ['2'] + ['9'], '4');
    OneMoreDigit("" + ['4'] + ['2'] + ['9'] + ['4'], '9');
    var half := "" + ['4'] + ['2'] + ['9'] + ['4'] + ['9'];
    OneMoreDigit(half, '6');
    OneMoreDigit(half + ['6'], '7');
    OneMoreDigit(half + ['6'] + ['7'], '2');
    OneMoreDigit(half + ['6'] + ['7'] + ['2'], '9');
    OneMoreDigit(half + ['6'] + ['7'] + ['2'] + ['9'], '5');
    assert half + ['6'] + ['7'] + ['2'] + ['9'] + ['5'] == "4294967295";
  }

  lemma NoDigits()
    ensures Digits("") && Value("") == 0
  {
  }

  lemma IndexByValue(key: string)
    ensures IndexKey(key) <==> IsNumeral(key) && Value(key) < 4294967295
  {
    if IsNumeral(key) {
      LargestIndex();
      if |key| < 10 {
        Shorter(key, "4294967295");
      } else if |key| == 10 {
        SameLengthIsNumeric(key, "4294967295");
      } else {
        Shorter("4294967295", key);
      }
    }
  }

  // The keys that are enumerated first are exactly the decimal numerals of the numbers below
  // 2^32 - 1.
  lemma IndexKeyExactlyWhen(key: string)
    ensures IndexKey(key) <==> exists n: nat :: n < 4294967295 && key == Decimal(n)
  {
    IndexByValue(key);
    if IndexKey(key) {
      NumeralIsDecimal(key);
    }
    forall n: nat | n < 4294967295 && key == Decimal(n)
      ensures IndexKey(key)
    {
      DecimalIsNumeral(n);
    }
  }

  // They are compared as numbers.
  lemma IndicesInNumericOrder(m: nat, n: nat)
    ensures NumericLess(Decimal(m), Decimal(n)) <==> m < n
  {
    DecimalIsNumeral(m);
    DecimalIsNumeral(n);
    var a, b := Decimal(m), Decimal(n);
    if |a| == |b| {
      SameLengthIsNumeric(a, b);
    } else if |a| < |b| {
      Positive(n, b);
      Shorter(a, b);
    } else {
      Positive(m, a);
      Shorter(b, a);
    }
  }

  lemma Positive(n: nat, s: string)
    requires s == Decimal(n) && |s| > 1
    ensures s[0] != '0'
  {
    DecimalIsNumeral(n);
  }
}
