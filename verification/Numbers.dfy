/** Which strings sym_string_valid accepts for an int: the decimal notation of an integer,
    and minus zero (symbol.c). */
module Numbers {
  import opened ConfLine

  function Digit(d: nat): (c: char)
    requires d < 10
    ensures IsDigit(c)
  {
    "0123456789"[d]
  }

  /** Decimal notation. */
  function Decimal(n: nat): string {
    if n < 10 then [Digit(n)] else Decimal(n / 10) + [Digit(n % 10)]
  }

  function Notation(n: int): string { if n < 0 then "-" + Decimal(-n) else Decimal(n) }

  /** Digits, the first of which is 0 only if it is alone. */
  predicate IsPlainDecimal(t: string) { t != "" && AllDigits(t) && (t[0] == '0' ==> |t| == 1) }

  lemma {:induction false} DecimalIsPlain(n: nat)
    ensures IsPlainDecimal(Decimal(n)) && (Decimal(n)[0] == '0' <==> n == 0)
  {
    if n >= 10 { DecimalIsPlain(n / 10); }
  }

  lemma {:induction false} PlainIsDecimal(t: string) returns (n: nat)
    requires IsPlainDecimal(t)
    ensures Decimal(n) == t
  {
    var c := t[|t| - 1];
    var d := (c - '0') as nat;
    assert Digit(d) == c;
    if |t| == 1 {
      n := d;
    } else {
      var m := PlainIsDecimal(t[..|t| - 1]);
      DecimalIsPlain(m);
      n := 10 * m + d;
      assert t == t[..|t| - 1] + [c];
    }
  }

  /** The strings accepted are the notations of the integers, and "-0". */
  lemma DecimalIff(s: string)
    ensures IsDecimal(s) <==> s == "-0" || exists n: int :: Notation(n) == s
  {
    if s != "" && s[0] == '-' {
      var t := s[1..];
      assert s == "-" + t;
      if IsPlainDecimal(t) {
        var n := PlainIsDecimal(t);
        assert n == 0 ==> t == "0";
        if n > 0 { assert Notation(-n) == s; }
      }
    } else if IsPlainDecimal(s) {
      var n := PlainIsDecimal(s);
      assert Notation(n) == s;
    }
    if n: int :| Notation(n) == s {
      DecimalIsPlain(if n < 0 then -n else n);
      if n < 0 { assert s[1..] == Decimal(-n); }
    }
  }
}
