/**
 * The two pieces of text handling the connector relies on: the decimal
 * rendering that `%d` performs, and splitting a string at a separator, which
 * is how the textual form of a security identifier is read back.
 */
module Text {

  /** Every character of `s` is an ASCII decimal digit. */
  predicate IsDigits(s: string) {
    forall i :: 0 <= i < |s| ==> '0' <= s[i] <= '9'
  }

  /** A decimal numeral: at least one digit and nothing else. */
  predicate IsNumeral(s: string) {
    |s| >= 1 && IsDigits(s)
  }

  function DigitChar(d: nat): (c: char)
    requires d < 10
    ensures '0' <= c <= '9'
  {
    (('0' as int) + d) as char
  }

  function DigitValue(c: char): (d: nat)
    requires '0' <= c <= '9'
    ensures d < 10
  {
    (c as int) - ('0' as int)
  }

  /**
   * The decimal rendering of `n`, as `%d` prints an unsigned integer: at least
   * one digit, only digits, and no leading zero unless `n` is zero.
   */
  function Dec(n: nat): (s: string)
    ensures IsNumeral(s)
    ensures s[0] == '0' ==> n == 0 && |s| == 1
    decreases n
  {
    if n < 10 then [DigitChar(n)] else Dec(n / 10) + [DigitChar(n % 10)]
  }

  /** The number a string of decimal digits denotes (most significant first). */
  function DecValue(s: string): nat
    requires IsDigits(s)
  {
    if s == [] then 0 else DecValue(s[..|s| - 1]) * 10 + DigitValue(s[|s| - 1])
  }

  /** Reading back a rendered number gives the number. */
  lemma {:induction false} DecValueOfDec(n: nat)
    ensures DecValue(Dec(n)) == n
    decreases n
  {
    if n >= 10 {
      var s := Dec(n);
      assert s[..|s| - 1] == Dec(n / 10);
      DecValueOfDec(n / 10);
    }
  }

  /** Distinct numbers have distinct renderings. */
  lemma DecInjective(m: nat, n: nat)
    requires Dec(m) == Dec(n)
    ensures m == n
  {
    DecValueOfDec(m);
    DecValueOfDec(n);
  }

  /** The fields of `s` between occurrences of `-`, in order (Go's strings.Split(s, "-")). */
  function Fields(s: string): (fs: seq<string>)
    ensures |fs| >= 1
  {
    if s == [] then [""]
    else if s[0] == '-' then [""] + Fields(s[1..])
    else
      var rest := Fields(s[1..]);
      [[s[0]] + rest[0]] + rest[1..]
  }

  /** A string without a separator is a single field. */
  lemma {:induction false} FieldsOfPlain(s: string)
    requires '-' !in s
    ensures Fields(s) == [s]
  {
    if s != [] {
      FieldsOfPlain(s[1..]);
      assert [s[0]] + s[1..] == s;
    }
  }

  /** The fields of a string with a first character `c`: a separator opens a new field, anything else extends the first. */
  lemma FieldsCons(c: char, t: string)
    ensures Fields([c] + t) == if c == '-' then [""] + Fields(t) else [[c] + Fields(t)[0]] + Fields(t)[1..]
  {
    assert ([c] + t)[1..] == t;
  }

  /** Extending the first field of a concatenation extends the first field of its left part. */
  lemma ExtendFirstField(x: string, fr: seq<string>, fb: seq<string>)
    requires |fr| >= 1
    ensures [x + (fr + fb)[0]] + (fr + fb)[1..] == ([x + fr[0]] + fr[1..]) + fb
  {
    assert (fr + fb)[1..] == fr[1..] + fb;
  }

  /** A field put in front of a concatenation is put in front of its left part. */
  lemma PrependField(x: string, fr: seq<string>, more: seq<string>)
    ensures [x] + (fr + more) == ([x] + fr) + more
  {
  }

  /** When the fields of `joined` are those of `rest` followed by `more`, that stays so after prefixing a separator to both. */
  lemma FieldsSepStep(rest: string, joined: string, more: seq<string>)
    requires Fields(joined) == Fields(rest) + more
    ensures Fields(['-'] + joined) == Fields(['-'] + rest) + more
  {
    FieldsCons('-', rest);
    FieldsCons('-', joined);
    PrependField("", Fields(rest), more);
  }

  /** When the fields of `joined` are those of `rest` followed by `more`, that stays so after prefixing a non-separator to both. */
  lemma FieldsCharStep(c: char, rest: string, joined: string, more: seq<string>)
    requires c != '-' && Fields(joined) == Fields(rest) + more
    ensures Fields([c] + joined) == Fields([c] + rest) + more
  {
    FieldsCons(c, rest);
    FieldsCons(c, joined);
    ExtendFirstField([c], Fields(rest), more);
  }

  /** Joining two strings with a separator concatenates their field lists. */
  lemma {:induction false} FieldsOfJoin(a: string, b: string)
    ensures Fields(a + "-" + b) == Fields(a) + Fields(b)
  {
    if a == [] {
      assert Fields(a + "-" + b) == Fields(['-'] + b) by {
        assert a + "-" + b == ['-'] + b;
      }
      FieldsCons('-', b);
    } else {
      var c, rest := a[0], a[1..];
      assert Fields(a + "-" + b) == Fields([c] + (rest + "-" + b)) by {
        assert a + "-" + b == [c] + (rest + "-" + b);
      }
      assert Fields(a) == Fields([c] + rest) by {
        assert a == [c] + rest;
      }
      FieldsOfJoin(rest, b);
      if c == '-' {
        FieldsSepStep(rest, rest + "-" + b, Fields(b));
      } else {
        FieldsCharStep(c, rest, rest + "-" + b, Fields(b));
      }
    }
  }

  /** A rendered number is a single field. */
  lemma DecIsOneField(n: nat)
    ensures Fields(Dec(n)) == [Dec(n)]
  {
    var s := Dec(n);
    assert forall i :: 0 <= i < |s| ==> s[i] != '-';
    FieldsOfPlain(s);
  }
}
